/**
  Every run of the configuration store (`lch/util/cconfig.c`): a text is loaded, then edits follow in any order.
 */
module ConfigRuns {
  import opened ConfigModel
  import opened ConfigLoading
  import opened ConfigStore
  import L = ConfigLoad
  import V = ConfigReload
  import T = ConfigText

  datatype Edit =
    | AddToken(section: string, where: int, id: Option<string>, value: Option<string>, n: int)
    | DelToken(section: string, id: Option<string>, k: int, n: int)
    | SetValue(section: string, id: Option<string>, text: string, k: int, n: int)
    | DelSection(section: string, n: int)

  method Apply(c: Config, edit: Edit) returns (ret: int)
    requires c.Valid()
    modifies c
    ensures c.Valid()
  {
    match edit {
      case AddToken(section, where, id, value, n) => ret := c.AddToken(section, where, id, value, n);
      case DelToken(section, id, k, n) => ret := c.DelToken(section, id, k, n);
      case SetValue(section, id, value, k, n) => ret := c.SetValue(section, id, value, k, n);
      case DelSection(section, n) => ret := c.DelSection(section, n);
    }
  }

  /**
    Whatever text is loaded and whatever edits follow, refused ones included, in the end the invariant holds,
    and what a caller sees is what the text of the store says, every index counted by occurrence.
   */
  method Run(fold: Fold, text: string, edits: seq<Edit>) returns (c: Config, ret: int)
    ensures fresh(c) && c.fold == fold && (ret == 0 <==> T.Read(text).Some?)
    ensures ret == 0 ==> c.Valid() && AllReadable(c.lines, c.tokens)
    ensures ret == 0 ==>
      var parts := V.Parts(T.Singles(RowsOf(c.lines, c.tokens)));
      && (forall i :: 0 <= i < |parts| ==> V.SingleTokens(parts[i].rows))
      && V.View(c.State(), fold) == V.PartsSeen(parts, fold)
  {
    c := new Config(fold);
    ret := L.Load(c, text);
    if ret != 0 {
      return;
    }
    var i := 0;
    while i < |edits|
      invariant c.Valid() && fresh(c) && c.fold == fold
    {
      var _ := Apply(c, edits[i]);
      i := i + 1;
    }
    V.ViewIsText(c.State(), fold);
  }
}
