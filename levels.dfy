/**
 * The debug level table `iwn_levels` (tools/iwn/iwndebug/main.c:52-79):
 * an ordered list of (name, 64-bit value) pairs. Only the first entry's value
 * is known here (`none` is 0); the others come from the driver's debug header,
 * which is not part of this model, so a table is any list with these names in
 * this order and a zero first value. No entry is assumed to be a single bit:
 * `any` is a combined mask.
 */
module Levels {
  import opened CLib

  datatype Level = Level(name: string, value: bv64)

  const NoneName: string := "none"

  /** The level names, in table order. */
  const LevelNames: seq<string> := [
    "none", "xmit", "recv", "state", "txpower", "reset", "ops", "beacon",
    "watchdog", "intr", "calibrate", "node", "led", "cmd", "txrate",
    "powersave", "scan", "stats", "ampdu", "register", "trace", "fatal", "any"
  ]

  function NamesOf(table: seq<Level>): (names: seq<string>)
    ensures |names| == |table|
    ensures forall i :: 0 <= i < |table| ==> names[i] == table[i].name
  {
    seq(|table|, i requires 0 <= i < |table| => table[i].name)
  }

  /** The shape of `iwn_levels`: the known names in order, `none` first with value 0. */
  predicate IsLevelTable(table: seq<Level>) {
    NamesOf(table) == LevelNames && table[0].value == 0
  }

  /**
   * The table built from the 22 header constants after `none`
   * (`IWN_DEBUG_XMIT` .. `IWN_DEBUG_ANY`), taken as parameters.
   */
  function MakeTable(values: seq<bv64>): (table: seq<Level>)
    requires |values| == |LevelNames| - 1
    ensures IsLevelTable(table)
    ensures table[0] == Level(NoneName, 0)
    ensures forall i :: 1 <= i < |table| ==> table[i].value == values[i - 1]
  {
    var table := [Level(NoneName, 0)] +
      seq(|values|, i requires 0 <= i < |values| => Level(LevelNames[i + 1], values[i]));
    assert NamesOf(table) == LevelNames;
    table
  }

  /** `name` denotes `level` for `strcasecmp`. */
  predicate Named(name: string, level: Level) {
    LowerStr(name) == LowerStr(level.name)
  }

  predicate AllLowerLetters(s: string) {
    forall k :: 0 <= k < |s| ==> 'a' <= s[k] <= 'z'
  }

  lemma LowerIdentity(s: string)
    requires AllLowerLetters(s)
    ensures LowerStr(s) == s
  {
  }

  lemma LevelNamesLetters()
    ensures forall i :: 0 <= i < |LevelNames| ==> AllLowerLetters(LevelNames[i])
  {
  }

  lemma LevelNamesDistinct()
    ensures forall i, j :: 0 <= i < j < |LevelNames| ==> LevelNames[i] != LevelNames[j]
  {
  }

  /** Every entry's name is a C string. */
  predicate CNames(levels: seq<Level>) {
    forall i :: 0 <= i < |levels| ==> IsCString(levels[i].name)
  }

  lemma LevelTableCNames(table: seq<Level>)
    requires IsLevelTable(table)
    ensures CNames(table)
  {
    forall i | 0 <= i < |table| ensures IsCString(table[i].name) { TableNamesLower(table, i); }
  }

  /** Every name in a level table is a C string written in lower case. */
  lemma TableNamesLower(table: seq<Level>, i: int)
    requires IsLevelTable(table) && 0 <= i < |table|
    ensures IsCString(table[i].name)
    ensures LowerStr(table[i].name) == table[i].name
  {
    LevelNamesLetters();
    assert table[i].name == NamesOf(table)[i] == LevelNames[i];
    LowerIdentity(table[i].name);
  }

  /** A name denotes at most one entry of a level table, whatever its case. */
  lemma {:induction false} NamedUnique(table: seq<Level>, name: string, i: int, j: int)
    requires IsLevelTable(table)
    requires 0 <= i < |table| && 0 <= j < |table|
    requires Named(name, table[i]) && Named(name, table[j])
    ensures i == j
  {
    TableNamesLower(table, i);
    TableNamesLower(table, j);
    assert table[i].name == NamesOf(table)[i] == LevelNames[i];
    assert table[j].name == NamesOf(table)[j] == LevelNames[j];
    LevelNamesDistinct();
  }

  /** The first entry is the reset sentinel `none` with value 0. */
  lemma NoneFirst(table: seq<Level>)
    requires IsLevelTable(table)
    ensures table[0] == Level(NoneName, 0)
  {
    assert table[0].name == NamesOf(table)[0];
  }
}
