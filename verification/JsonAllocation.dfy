/**
  The memory that `parse_string` of `lch/util/cJSON.c` takes for a string: it counts the characters up to the closing
  quote, an escape as one, and reads the text again while it writes.
 */
module JsonAllocation {
  import opened JsonText

  // ----- Counting -----

  /** The characters counted in the inside of a quoted string. */
  function Counted(t: string): nat {
    if t == "" || t[0] == '\"' then 0
    else if t[0] == '\\' then if |t| == 1 then 1 else 1 + Counted(t[2..])
    else 1 + Counted(t[1..])
  }

  /** The text from the quote on at which counting stops. */
  function Closing(t: string): (r: string)
    ensures |r| <= |t|
  {
    if t == "" || t[0] == '\"' then t
    else if t[0] == '\\' then if |t| == 1 then "" else Closing(t[2..])
    else Closing(t[1..])
  }

  // ----- Reading no further than was counted -----

  /** Reading stops no later than counting did. */
  predicate Stops(rest: string, closing: string) {
    |closing| <= |rest| + 1
  }

  /** What is written fits when reading and counting stand at the same place. */
  lemma {:induction false} Fits(t: string)
    requires ReadInside(t).Ok? && Stops(ReadInside(t).rest, Closing(t))
    ensures |ReadInside(t).value| <= Counted(t)
    decreases |t|, 1
  {
    if t != "" && t[0] != '\"' {
      if t[0] != '\\' {
        Fits(t[1..]);
      } else if t[1] == 'u' {
        FitsUnicode(t[2..]);
      } else {
        Fits(t[2..]);
      }
    }
  }

  /** The same when counting is ahead by one character, which it took for the second of an escape. */
  lemma {:induction false} FitsBehind(t: string)
    requires t != "" && ReadInside(t).Ok? && Stops(ReadInside(t).rest, Closing(t[1..]))
    ensures |ReadInside(t).value| <= Counted(t[1..]) + 1
    decreases |t|, 1
  {
    if t[0] != '\"' {
      if t[0] != '\\' {
        Fits(t[1..]);
      } else if t[1] == 'u' {
        FitsUnicode(t[2..]);
      } else if t[1] == '\"' {
        assert ReadInside(t[2..]).rest == "";
      } else if t[1] == '\\' {
        if |t| > 2 {
          FitsBehind(t[2..]);
        }
      } else {
        Fits(t[2..]);
      }
    }
  }

  /** What is written for "\u", with the text `t` behind it, and for all that follows. */
  lemma {:induction false} FitsUnicode(t: string)
    requires ReadUnicode(t).Ok? && ReadInside(ReadUnicode(t).rest).Ok?
    requires Stops(ReadInside(ReadUnicode(t).rest).rest, Closing(t))
    ensures |ReadUnicode(t).value| + |ReadInside(ReadUnicode(t).rest).value| <= Counted(t) + 1
    decreases |t|, 1
  {
    var u, uc := ReadUnicode(t), Hex4(t);
    if 0xD800 <= uc <= 0xDBFF && |u.rest| == |t| - 10 {
      DigitsCounted(t);
      Shorter(0x10000 + (uc % 1024) * 1024 + Hex4(t[6..]) % 1024);
      assert t[4..][2..] == t[6..] && t[6..][4..] == t[10..];
      FitsFour(t[6..], u.value);
    } else {
      if u.value != "" {
        Shorter(uc);
      }
      FitsFour(t, u.value);
    }
  }

  lemma Shorter(uc: nat)
    requires 0 < uc < 0x110000
    ensures |Utf8(uc)| <= 4
  {}

  /** At most four bytes for four digits, none for what are no digits, and all that follows. */
  lemma {:induction false} FitsFour(t: string, value: string)
    requires |t| >= 4 && |value| <= 4 && (value != "" ==> Hex4(t) != 0)
    requires ReadInside(t[4..]).Ok? && Stops(ReadInside(t[4..]).rest, Closing(t))
    ensures |value| + |ReadInside(t[4..]).value| <= Counted(t) + 1
    decreases |t|, 0
  {
    if value != "" {
      DigitsCounted(t);
      Fits(t[4..]);
    } else {
      var k, n, closed := CountOver(t, 4);
      if closed {
        assert t[4..] == "";
      } else if n == 4 {
        Fits(t[4..]);
      } else {
        assert t[4..][1..] == t[5..];
        FitsBehind(t[4..]);
      }
    }
  }

  /** Digits are counted one by one. */
  lemma DigitsCounted(t: string)
    requires |t| >= 4 && Hex4(t) != 0
    ensures Counted(t) == 4 + Counted(t[4..]) && Closing(t) == Closing(t[4..])
  {
    var k, n, closed := CountOver(t, 4);
    AllDigits(t);
  }

  lemma AllDigits(t: string)
    requires |t| >= 4 && Hex4(t) != 0
    ensures forall i :: 0 <= i < 4 ==> t[i] != '\\' && t[i] != '\"'
  {
    assert Hex(t[0]).Ok? && Hex(t[1]).Ok? && Hex(t[2]).Ok? && Hex(t[3]).Ok?;
  }

  /** Counting over the first `m` characters: it stops at a quote, or right behind them, or one character further. */
  lemma {:induction false} CountOver(t: string, m: nat) returns (k: nat, n: nat, closed: bool)
    requires m <= |t|
    ensures closed ==> |Closing(t)| > |t| - m && exists i :: 0 <= i < m && t[i] == '\"'
    ensures !closed ==>
      && m <= n <= m + 1 && n <= |t| && (n > m ==> m > 0 && t[m - 1] == '\\')
      && Counted(t) == k + Counted(t[n..]) && Closing(t) == Closing(t[n..])
      && ((forall i :: 0 <= i < m ==> t[i] != '\\') ==> k == n == m)
    decreases m
  {
    k, n, closed := 0, 0, false;
    if m > 0 {
      if t[0] == '\"' {
        closed := true;
      } else if t[0] != '\\' {
        k, n, closed := CountOver(t[1..], m - 1);
        k, n := k + 1, n + 1;
      } else if |t| == 1 {
        k, n := 1, 1;
      } else if m == 1 {
        k, n := 1, 2;
      } else {
        k, n, closed := CountOver(t[2..], m - 2);
        k, n := k + 1, n + 2;
      }
    }
  }

  // ----- Reading past the closing quote -----

  /** Is the end of the text reached before a quote that ends the string?  Four characters behind "\u" are skipped. */
  predicate Overshoots(t: string)
    decreases |t|
  {
    if t == "" then true
    else if t[0] == '\"' then false
    else if t[0] != '\\' then Overshoots(t[1..])
    else if |t| == 1 then true
    else if t[1] != 'u' then Overshoots(t[2..])
    else |t| < 6 || |t| - 2 < Skipped(t[2..]) || Overshoots(t[2 + Skipped(t[2..])..])
  }

  /** How many characters behind "\u" belong to it. */
  function Skipped(t: string): (n: nat)
    requires |t| >= 4
    ensures n == 4 || n == 10
  {
    if 0xD800 <= Hex4(t) <= 0xDBFF && |t| >= 6 && t[4] == '\\' && t[5] == 'u' then 10 else 4
  }

  /** A string that ends inside the text is read alike whatever follows. */
  lemma {:induction false} EndsInside(t: string, more: string)
    requires !Overshoots(t)
    ensures var p := ReadInside(t + more);
      p.Ok? && |p.rest| >= |more|
    decreases |t|
  {
    var all := t + more;
    if t[0] != '\"' {
      if t[0] != '\\' {
        assert all[1..] == t[1..] + more;
        EndsInside(t[1..], more);
      } else if t[1] != 'u' {
        assert all[2..] == t[2..] + more;
        EndsInside(t[2..], more);
      } else {
        var n := Skipped(t[2..]);
        assert all[2..] == t[2..] + more;
        Behind(t[2..], more, n);
        assert t[2..][n..] == t[2 + n..];
        EndsInside(t[2..][n..], more);
        UnicodeInside(t[2..], more);
      }
    }
  }

  lemma Behind(t: string, more: string, n: nat)
    requires n <= |t|
    ensures (t + more)[n..] == t[n..] + more
  {}

  lemma UnicodeInside(t: string, more: string)
    requires |t| >= 4 && |t| >= Skipped(t) && !Overshoots(t[Skipped(t)..])
    ensures var u := ReadUnicode(t + more);
      u.Ok? && u.rest == (t + more)[Skipped(t)..]
  {
    assert t[Skipped(t)..] != "";
    assert Hex4(t + more) == Hex4(t);
  }

  /** Letters that are no digits, and a quote. */
  function Letters(n: nat): string {
    if n == 0 then "\"" else "z" + Letters(n - 1)
  }

  lemma {:induction false} LettersRead(n: nat)
    ensures ReadInside(Letters(n)).Ok? && |ReadInside(Letters(n)).value| == n
  {
    if n > 0 {
      LettersRead(n - 1);
      assert Letters(n)[1..] == Letters(n - 1);
    }
  }

  lemma {:induction false} LettersAt(n: nat)
    ensures |Letters(n)| == n + 1
    ensures forall i :: 0 <= i < n ==> Letters(n)[i] == 'z'
    ensures forall k: nat :: k <= n ==> Letters(n)[k..] == Letters(n - k)
  {
    if n > 0 {
      LettersAt(n - 1);
      forall k: nat | 0 < k <= n
        ensures Letters(n)[k..] == Letters(n - k)
      {
        assert Letters(n)[k..] == Letters(n - 1)[k - 1..];
      }
    }
  }

  /** Otherwise what follows is written, too, but for the few characters that an escape takes. */
  lemma {:induction false} WritesOn(t: string, n: nat)
    requires Overshoots(t) && n >= 10
    ensures var p := ReadInside(t + Letters(n));
      p.Ok? && |p.value| >= n - 10
    decreases |t|
  {
    var all := t + Letters(n);
    LettersAt(n);
    if t == "" {
      assert all == Letters(n);
      LettersRead(n);
    } else if t[0] != '\\' {
      assert all[1..] == t[1..] + Letters(n);
      WritesOn(t[1..], n);
    } else if |t| == 1 {
      assert all[2..] == Letters(n)[1..];
      LettersRead(n - 1);
    } else if t[1] != 'u' {
      assert all[2..] == t[2..] + Letters(n);
      WritesOn(t[2..], n);
    } else {
      assert all[2..] == t[2..] + Letters(n);
      UnicodeOn(t[2..], n);
    }
  }

  /** The same behind "\u". */
  predicate UnicodeWrites(t: string, n: nat) {
    var u := ReadUnicode(t + Letters(n));
    u.Ok? && ReadInside(u.rest).Ok? && |ReadInside(u.rest).value| >= n - 10
  }

  lemma {:induction false} UnicodeOn(t: string, n: nat)
    requires n >= 10
    requires |t| < 4 || |t| < Skipped(t) || Overshoots(t[Skipped(t)..])
    ensures UnicodeWrites(t, n)
    decreases |t|
  {
    if |t| < 4 {
      Starts4(t, n);
      LettersRead(n - (4 - |t|));
    } else if |t| < Skipped(t) {
      Starts10(t, n);
      LettersRead(n - (10 - |t|));
    } else {
      WritesOn(t[Skipped(t)..], n);
      StartsInside(t, n);
    }
  }

  lemma StartsInside(t: string, n: nat)
    requires n >= 10 && |t| >= 4 && |t| >= Skipped(t) && Overshoots(t[Skipped(t)..])
    requires ReadInside(t[Skipped(t)..] + Letters(n)).Ok?
    requires |ReadInside(t[Skipped(t)..] + Letters(n)).value| >= n - 10
    ensures UnicodeWrites(t, n)
  {
    LettersAt(n);
    SkippedStays(t, Letters(n));
  }

  lemma Starts4(t: string, n: nat)
    requires n >= 10 && |t| < 4
    ensures ReadUnicode(t + Letters(n)) == Ok("", Letters(n - (4 - |t|)))
  {
    LettersAt(n);
    var all := t + Letters(n);
    assert all[3] == 'z' && Hex4(all) == 0;
    assert all[4..] == Letters(n)[4 - |t|..];
  }

  lemma Starts10(t: string, n: nat)
    requires n >= 10 && 4 <= |t| < Skipped(t)
    ensures ReadUnicode(t + Letters(n)) == Ok("", Letters(n - (10 - |t|)))
  {
    LettersAt(n);
    var all := t + Letters(n);
    assert Hex4(all) == Hex4(t) && all[4] == '\\' && all[5] == 'u';
    assert all[6..][3] == all[9] == Letters(n)[9 - |t|];
    NoDigits(all[6..]);
    assert all[10..] == Letters(n)[10 - |t|..];
  }

  lemma NoDigits(t: string)
    requires |t| >= 4 && t[3] == 'z'
    ensures Hex4(t) == 0
  {}

  lemma SkippedStays(t: string, more: string)
    requires |t| >= 4 && |t| >= Skipped(t) && Overshoots(t[Skipped(t)..]) && |more| > 0 && more[0] == 'z'
    ensures ReadUnicode(t + more).Ok? && ReadUnicode(t + more).rest == t[Skipped(t)..] + more
  {
    assert Hex4(t + more) == Hex4(t);
    Behind(t, more, Skipped(t));
  }

  // ----- The exact condition -----

  /** What follows the closing quote is not counted. */
  lemma {:induction false} CountedInside(t: string, more: string)
    requires Closing(t) == "\""
    ensures Counted(t + more) == Counted(t) && |Closing(t + more)| == 1 + |more|
    decreases |t|
  {
    if t[0] != '\"' {
      var n := if t[0] == '\\' then 2 else 1;
      assert (t + more)[n..] == t[n..] + more;
      CountedInside(t[n..], more);
    }
  }

  /**
    For the inside of a string with its closing quote: whatever follows in the text, what is written fits in what was
    counted, if and only if no escape takes the closing quote.
   */
  lemma AllocationExactly(t: string)
    requires Closing(t) == "\""
    ensures (forall more: string :: ReadInside(t + more).Ok? ==> |ReadInside(t + more).value| <= Counted(t)) <==>
      !Overshoots(t)
  {
    if Overshoots(t) {
      WritesOn(t, Counted(t) + 11);
    } else {
      forall more: string
        ensures ReadInside(t + more).Ok? ==> |ReadInside(t + more).value| <= Counted(t)
      {
        EndsInside(t, more);
        CountedInside(t, more);
        Fits(t + more);
      }
    }
  }

  /** One escape without digits: one character is counted, and three are written. */
  lemma QuoteTaken()
    ensures Closing("\\u\"") == "\"" && Overshoots("\\u\"") && Counted("\\u\"") == 1
    ensures ReadInside("\\u\"abcdef\"") == Ok("def", "")
  {
    var t, quote := "\\u\"abcdef\"", "\\u\"";
    assert quote[2..] == "\"" && t[2..] == "\"abcdef\"" && t[2..][4..] == "def\"";
    assert Closing("\"") == "\"" && Counted("\"") == 0;
    assert ReadUnicode(t[2..]) == Ok("", "def\"");
    LastThree();
    assert ReadInside(t) == Before("", ReadInside("def\""));
    assert "" + "def" == "def";
  }

  lemma PlainFirst(c: char, t: string, s: string)
    requires c != '\"' && c != '\\' && ReadInside(t) == Ok(s, "")
    ensures ReadInside([c] + t) == Ok([c] + s, "")
  {
    assert ([c] + t)[1..] == t;
  }

  lemma LastThree()
    ensures ReadInside("def\"") == Ok("def", "")
  {
    assert ReadInside("\"") == Ok("", "");
    PlainFirst('f', "\"", "");
    PlainFirst('e', ['f'] + "\"", ['f'] + "");
    PlainFirst('d', ['e'] + (['f'] + "\""), ['e'] + (['f'] + ""));
    assert ['d'] + (['e'] + (['f'] + "\"")) == "def\"" && ['d'] + (['e'] + (['f'] + "")) == "def";
  }
}
