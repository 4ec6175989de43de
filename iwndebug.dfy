/**
 * The read-modify-write of `main` (tools/iwn/iwndebug/main.c:146-225).
 *
 * The device name read from `net.wlan.devices` (None when that read fails)
 * and the debug level read from the device's control key are inputs; the
 * write-back, the listing, the usage text and the error exits are the
 * `Outcome` of a run. `Decide` states the decision table; `Run` is the
 * program's own step-by-step form, with its argument loop and its nested
 * scan of the level table, and is proved to reach the same outcome.
 */
module IwnDebug {
  import opened Wrappers
  import opened CLib
  import opened Levels
  import opened Device

  /** Exit statuses from <sysexits.h>. */
  const EX_OK: int := 0
  const EX_USAGE: int := 64
  const EX_DATAERR: int := 65

  datatype Outcome =
    | Write(key: string, value: bv64)   // set `key` to `value`, print `key=0x<value>`
    | ListLevels(names: seq<string>)    // print the level names, exit with EX_USAGE
    | Usage                             // print the usage text, exit with EX_USAGE
    | NoDevice                          // "could not find iwn device", EX_DATAERR
    | InvalidInput                      // "Invalid input", EX_DATAERR

  /** The process exit status of an outcome, a successful write-back assumed. */
  function ExitStatus(o: Outcome): (status: int)
    ensures status == EX_OK <==> o.Write?
    ensures status == EX_USAGE <==> o.ListLevels? || o.Usage?
    ensures status == EX_DATAERR <==> o.NoDevice? || o.InvalidInput?
  {
    match o
    case Write(_, _) => EX_OK
    case ListLevels(_) => EX_USAGE
    case Usage => EX_USAGE
    case NoDevice => EX_DATAERR
    case InvalidInput => EX_DATAERR
  }

  /** The locals `value` and `found` of the argument loop. */
  datatype FoldState = FoldState(value: bv64, found: bool)

  /** `tok` is `sign` followed by a name denoting `level`, ignoring case. */
  predicate Signed(tok: string, sign: char, level: Level) {
    |tok| > 0 && tok[0] == sign && Named(tok[1..], level)
  }

  /** `value |= bits`: what a `+name` token does. */
  function Enable(value: bv64, bits: bv64): bv64 {
    value | bits
  }

  /** `value ^= bits`: what a `-name` token does, a toggle and not a clear. */
  function Toggle(value: bv64, bits: bv64): bv64 {
    value ^ bits
  }

  /** One table entry against one token: `+` ORs its value in, `-` XORs it in. */
  function Step(level: Level, tok: string, s: FoldState): FoldState {
    if Signed(tok, '+', level) then FoldState(Enable(s.value, level.value), true)
    else if Signed(tok, '-', level) then FoldState(Toggle(s.value, level.value), true)
    else s
  }

  /** One token against the entries of `levels`, first to last (the inner `for` loop). */
  function ScanLevels(levels: seq<Level>, tok: string, s: FoldState): (r: FoldState)
    ensures s.found ==> r.found
    ensures !(|tok| > 0 && (tok[0] == '+' || tok[0] == '-')) ==> r == s
    decreases |levels|
  {
    if |levels| == 0 then s
    else Step(levels[|levels| - 1], tok, ScanLevels(levels[..|levels| - 1], tok, s))
  }

  /** Every token in turn, left to right (the outer `while` loop). */
  function ScanArgs(table: seq<Level>, toks: seq<string>, s: FoldState): (r: FoldState)
    ensures s.found ==> r.found
    ensures r.found && !s.found ==> exists k :: 0 <= k < |toks| && |toks[k]| > 0 && (toks[k][0] == '+' || toks[k][0] == '-')
    decreases |toks|
  {
    if |toks| == 0 then s
    else ScanLevels(table, toks[|toks| - 1], ScanArgs(table, toks[..|toks| - 1], s))
  }

  /** The single argument that resets the level: its first four characters spell `none` in any case. */
  predicate IsReset(arg: string) {
    |arg| >= |NoneName| && LowerStr(arg[..|NoneName|]) == NoneName
  }

  /** The decision table of `main`, in the order the program tests it. */
  function Decide(table: seq<Level>, ifname: Option<string>, seed: bv64, argv: seq<string>): (o: Outcome)
    requires IsLevelTable(table) && |argv| >= 1
    ensures o == NoDevice <==> DebugKey(ifname).None?
    ensures o.Write? ==> DebugKey(ifname) == Some(o.key)
    ensures o.ListLevels? ==> o.names == LevelNames
  {
    match DebugKey(ifname)
    case None => NoDevice
    case Some(key) =>
      if |argv| == 1 then Write(key, seed)
      else if StartsWith(argv[1], "-?") then ListLevels(NamesOf(table))
      else if StartsWith(argv[1], "-h") then Usage
      else if |argv| == 2 && IsReset(argv[1]) then Write(key, table[0].value)
      else
        var s := ScanArgs(table, argv[1..], FoldState(seed, false));
        if s.found then Write(key, s.value) else InvalidInput
  }

  predicate AllCStrings(argv: seq<string>) {
    forall k :: 0 <= k < |argv| ==> IsCString(argv[k])
  }

  /**
   * `main` after the device name and the current level have been read:
   * the early exits, the special `none` argument, and the loop over the
   * arguments with its scan of the level table, using the C library's
   * comparisons.
   */
  method Run(table: seq<Level>, ifname: Option<string>, seed: bv64, argv: seq<string>)
    returns (o: Outcome)
    requires IsLevelTable(table) && |argv| >= 1
    requires ifname.Some? ==> IsCString(ifname.value)
    requires AllCStrings(argv)
    ensures o == Decide(table, ifname, seed, argv)
  {
    if ifname.None? || !NCompareEqual(ifname.value, Family, 3, false) {
      if ifname.Some? { PrefixCompare(ifname.value, Family); }
      return NoDevice;
    }
    PrefixCompare(ifname.value, Family);
    var oid := KeyHead + ifname.value[3..] + KeyTail;
    var value := seed;

    if |argv| == 1 {
      return Write(oid, value);
    }
    PrefixCompare(argv[1], "-?");
    if NCompareEqual(argv[1], "-?", 2, false) {
      return ListLevels(NamesOf(table));
    }
    PrefixCompare(argv[1], "-h");
    if NCompareEqual(argv[1], "-h", 2, false) {
      return Usage;
    }
    NoneFirst(table);
    if |argv| <= 2 {
      CaselessPrefixCompare(argv[1], table[0].name);
      if NCompareEqual(argv[1], table[0].name, 4, true) {
        value := table[0].value;
        return Write(oid, value);
      }
    }

    var found: bool;
    LevelTableCNames(table);
    value, found := ApplyArgs(table, argv, seed);
    if !found {
      return InvalidInput;
    }
    return Write(oid, value);
  }

  /**
   * The argument loop of `main` (tools/iwn/iwndebug/main.c:194-208): every
   * argument after the program name is compared with every table entry.
   */
  method ApplyArgs(table: seq<Level>, argv: seq<string>, seed: bv64) returns (value: bv64, found: bool)
    requires CNames(table) && |argv| >= 1 && AllCStrings(argv)
    ensures FoldState(value, found) == ScanArgs(table, argv[1..], FoldState(seed, false))
  {
    value := seed;
    found := false;
    var narg := 1;
    while narg <= |argv| - 1
      invariant 1 <= narg <= |argv|
      invariant FoldState(value, found) == ScanArgs(table, argv[1..narg], FoldState(seed, false))
    {
      var tok := argv[narg];
      ghost var before := FoldState(value, found);
      for i := 0 to |table|
        invariant FoldState(value, found) == ScanLevels(table[..i], tok, before)
      {
        MatchesAsC(table, i, tok);
        if At(tok, 0) == '+' && CaseCompareEqual(tok[1..], table[i].name) {
          found := true;
          value := Enable(value, table[i].value);
        } else if At(tok, 0) == '-' && CaseCompareEqual(tok[1..], table[i].name) {
          found := true;
          value := Toggle(value, table[i].value);
        }
        assert table[..i + 1][..i] == table[..i];
      }
      assert table[..|table|] == table;
      assert argv[1..narg + 1][..narg - 1] == argv[1..narg];
      narg := narg + 1;
    }
    assert argv[1..narg] == argv[1..];
  }

  /** The C test of the argument loop agrees with `Signed`. */
  lemma MatchesAsC(table: seq<Level>, i: int, tok: string)
    requires CNames(table) && 0 <= i < |table| && IsCString(tok)
    ensures At(tok, 0) == '+' && CaseCompareEqual(tok[1..], table[i].name) <==> Signed(tok, '+', table[i])
    ensures At(tok, 0) == '-' && CaseCompareEqual(tok[1..], table[i].name) <==> Signed(tok, '-', table[i])
  {
    if |tok| > 0 {
      CStringTail(tok, 1);
      CaseCompareMeaning(tok[1..], table[i].name);
    }
  }
}
