/**
 * What a run of the tool does, stated over `Decide` (and so over `Run`,
 * which is proved to agree with it): the order of the checks in `main`,
 * the reset argument, the meaning of `+name` and `-name`, and the
 * "Invalid input" exit (tools/iwn/iwndebug/main.c:161-219).
 */
module Properties {
  import opened Wrappers
  import opened CLib
  import opened Levels
  import opened Device
  import opened IwnDebug
  import opened Fold

  /** The control key of an iwn device. */
  function KeyOf(ifname: string): string
    requires StartsWith(ifname, Family)
  {
    DebugKey(Some(ifname)).value
  }

  /** The device is checked first: without an iwn device nothing else happens, not even `-?`. */
  lemma NoDeviceIff(table: seq<Level>, ifname: Option<string>, seed: bv64, argv: seq<string>)
    requires IsLevelTable(table) && |argv| >= 1
    ensures Decide(table, ifname, seed, argv) == NoDevice <==>
            !(ifname.Some? && StartsWith(ifname.value, Family))
  {
  }

  /** With no arguments, the level read is written back unchanged. */
  lemma NoArgumentsKeepsLevel(table: seq<Level>, ifname: string, seed: bv64, prog: string)
    requires IsLevelTable(table) && StartsWith(ifname, Family)
    ensures Decide(table, Some(ifname), seed, [prog]) == Write(KeyOf(ifname), seed)
  {
  }

  /** A first argument beginning with `-?` lists the levels, whatever follows; nothing is written. */
  lemma QueryListsLevels(table: seq<Level>, ifname: string, seed: bv64, argv: seq<string>)
    requires IsLevelTable(table) && StartsWith(ifname, Family)
    requires |argv| >= 2 && StartsWith(argv[1], "-?")
    ensures Decide(table, Some(ifname), seed, argv) == ListLevels(LevelNames)
    ensures ExitStatus(Decide(table, Some(ifname), seed, argv)) == EX_USAGE
  {
  }

  /** A first argument beginning with `-h` prints the usage, whatever follows; nothing is written. */
  lemma HelpShowsUsage(table: seq<Level>, ifname: string, seed: bv64, argv: seq<string>)
    requires IsLevelTable(table) && StartsWith(ifname, Family)
    requires |argv| >= 2 && StartsWith(argv[1], "-h")
    ensures Decide(table, Some(ifname), seed, argv) == Usage
    ensures ExitStatus(Decide(table, Some(ifname), seed, argv)) == EX_USAGE
  {
  }

  /** The first character of an argument whose first four spell `none` is `n` or `N`. */
  lemma ResetStartsWithN(arg: string)
    requires IsReset(arg)
    ensures arg[0] == 'n' || arg[0] == 'N'
  {
    assert LowerStr(arg[..4])[0] == Lower(arg[0]) == 'n';
  }

  /**
   * A single argument whose first four characters spell `none` in any case
   * (`NONE`, `nonesuch`) writes 0, whatever the level was.
   */
  lemma NoneResets(table: seq<Level>, ifname: string, seed: bv64, argv: seq<string>)
    requires IsLevelTable(table) && StartsWith(ifname, Family)
    requires |argv| == 2 && IsReset(argv[1])
    ensures Decide(table, Some(ifname), seed, argv) == Write(KeyOf(ifname), 0)
  {
    ResetStartsWithN(argv[1]);
    NoneFirst(table);
  }

  /** A signed `none` token passes the early exits and reaches the fold. */
  lemma SignedNoneReached(prog: string, tok: string)
    requires |tok| > 0 && (tok[0] == '+' || tok[0] == '-') && LowerStr(tok[1..]) == NoneName
    ensures FoldReached([prog, tok])
  {
    assert |tok| == 5;
    assert Lower(tok[1]) == LowerStr(tok[1..])[0] == 'n';
    assert !StartsWith(tok, "-?") && !StartsWith(tok, "-h");
    assert LowerStr(tok[..4])[0] == Lower(tok[0]) != 'n';
  }

  /** A signed `none` token matches entry 0, whose value is 0. */
  lemma SignedNoneToken(table: seq<Level>, tok: string, s: FoldState)
    requires IsLevelTable(table)
    requires |tok| > 0 && (tok[0] == '+' || tok[0] == '-') && LowerStr(tok[1..]) == NoneName
    ensures ScanLevels(table, tok, s) == FoldState(s.value, true)
  {
    NoneFirst(table);
    TableNamesLower(table, 0);
    if tok[0] == '+' {
      PlusToken(table, 0, tok, s);
    } else {
      MinusToken(table, 0, tok, s);
    }
  }

  /** A one-argument fold is the scan of that argument. */
  lemma SingleToken(table: seq<Level>, tok: string, s: FoldState)
    ensures ScanArgs(table, [tok], s) == ScanLevels(table, tok, s)
  {
    assert [tok][..0] == [];
  }

  /** `+name`/`-name` where name is `none` in any case: it counts as a match and the level stays. */
  lemma SignedNoneKeepsLevel(table: seq<Level>, ifname: string, seed: bv64, prog: string, tok: string)
    requires IsLevelTable(table) && StartsWith(ifname, Family)
    requires |tok| > 0 && (tok[0] == '+' || tok[0] == '-') && LowerStr(tok[1..]) == NoneName
    ensures Decide(table, Some(ifname), seed, [prog, tok]) == Write(KeyOf(ifname), seed)
  {
    var s := FoldState(seed, false);
    SignedNoneReached(prog, tok);
    ReachesFold(table, ifname, seed, [prog, tok]);
    assert [prog, tok][1..] == [tok];
    SingleToken(table, tok, s);
    SignedNoneToken(table, tok, s);
  }

  /** Where the fold is reached: the argument list is not a query, a help request or the reset. */
  predicate FoldReached(argv: seq<string>) {
    |argv| >= 2 && !StartsWith(argv[1], "-?") && !StartsWith(argv[1], "-h") &&
    !(|argv| == 2 && IsReset(argv[1]))
  }

  /**
   * "Invalid input" comes exactly when the fold is reached and no argument
   * is `+name` or `-name` for a level; in that case nothing is written.
   */
  lemma InvalidInputIff(table: seq<Level>, ifname: Option<string>, seed: bv64, argv: seq<string>)
    requires IsLevelTable(table) && |argv| >= 1
    ensures Decide(table, ifname, seed, argv) == InvalidInput <==>
            ifname.Some? && StartsWith(ifname.value, Family) && FoldReached(argv) &&
            forall k :: 1 <= k < |argv| ==> !Matches(table, argv[k])
  {
    if |argv| >= 2 {
      var toks := argv[1..];
      FoundIff(table, toks, FoldState(seed, false));
      if exists k :: 0 <= k < |toks| && Matches(table, toks[k]) {
        var k :| 0 <= k < |toks| && Matches(table, toks[k]);
        assert Matches(table, argv[k + 1]);
      }
      if exists k :: 1 <= k < |argv| && Matches(table, argv[k]) {
        var k :| 1 <= k < |argv| && Matches(table, argv[k]);
        assert Matches(table, toks[k - 1]);
      }
    }
  }

  /** When some argument matches, the fold's value is what gets written. */
  lemma MatchWrites(table: seq<Level>, ifname: string, seed: bv64, argv: seq<string>, k: int)
    requires IsLevelTable(table) && StartsWith(ifname, Family) && FoldReached(argv)
    requires 1 <= k < |argv| && Matches(table, argv[k])
    ensures Decide(table, Some(ifname), seed, argv) ==
            Write(KeyOf(ifname), ScanArgs(table, argv[1..], FoldState(seed, false)).value)
  {
    FoundIff(table, argv[1..], FoldState(seed, false));
    assert argv[1..][k - 1] == argv[k];
  }

  /**
   * Running the tool again with the same `+` arguments, on the level the
   * first run wrote, writes the same level again.
   */
  lemma PlusRunsIdempotent(table: seq<Level>, ifname: Option<string>, seed: bv64, argv: seq<string>)
    requires IsLevelTable(table) && |argv| >= 2 && AllSigned(argv[1..], '+')
    requires Decide(table, ifname, seed, argv).Write?
    ensures Decide(table, ifname, Decide(table, ifname, seed, argv).value, argv) ==
            Decide(table, ifname, seed, argv)
  {
    var toks := argv[1..];
    var first := Decide(table, ifname, seed, argv);
    assert toks[0] == argv[1];
    assert !StartsWith(argv[1], "-?") && !StartsWith(argv[1], "-h");
    assert !IsReset(argv[1]) by {
      if IsReset(argv[1]) { ResetStartsWithN(argv[1]); }
    }
    ScanAllPlus(table, toks, FoldState(seed, false));
    ScanAllPlus(table, toks, FoldState(first.value, false));
    EnableLaws(seed, PlusTotal(table, toks), PlusTotal(table, toks));
    FoundIff(table, toks, FoldState(seed, false));
    FoundIff(table, toks, FoldState(first.value, false));
  }

  /**
   * `-name` toggles: running the tool again with the same `-` arguments,
   * on the level the first run wrote, writes back the original level.
   */
  lemma MinusRunsRestore(table: seq<Level>, ifname: Option<string>, seed: bv64, argv: seq<string>)
    requires IsLevelTable(table) && |argv| >= 2 && AllSigned(argv[1..], '-')
    requires Decide(table, ifname, seed, argv).Write?
    ensures Decide(table, ifname, Decide(table, ifname, seed, argv).value, argv) ==
            Write(Decide(table, ifname, seed, argv).key, seed)
  {
    var toks := argv[1..];
    var first := Decide(table, ifname, seed, argv);
    assert toks[0] == argv[1];
    assert !IsReset(argv[1]) by {
      if IsReset(argv[1]) { ResetStartsWithN(argv[1]); }
    }
    ScanAllMinus(table, toks, FoldState(seed, false));
    ScanAllMinus(table, toks, FoldState(first.value, false));
    ToggleLaws(seed, MinusTotal(table, toks), MinusTotal(table, toks));
    FoundIff(table, toks, FoldState(seed, false));
    FoundIff(table, toks, FoldState(first.value, false));
  }

  /** The fold over `+xmit +recv`: both entries' values are ORed in, in turn. */
  lemma XmitRecvFold(table: seq<Level>, s: FoldState)
    requires IsLevelTable(table)
    ensures ScanArgs(table, ["+xmit", "+recv"], s) ==
            FoldState(s.value | table[1].value | table[2].value, true)
  {
    var toks := ["+xmit", "+recv"];
    TableNamesLower(table, 1);
    TableNamesLower(table, 2);
    assert table[1].name == NamesOf(table)[1] == "xmit";
    assert table[2].name == NamesOf(table)[2] == "recv";
    assert toks[..1] == ["+xmit"] && toks[..1][..0] == [];
    assert "+xmit"[1..] == "xmit" && "+recv"[1..] == "recv";
    PlusToken(table, 1, "+xmit", s);
    var mid := ScanLevels(table, "+xmit", s);
    PlusToken(table, 2, "+recv", mid);
    assert ScanArgs(table, toks[..1], s) == ScanLevels(table, "+xmit", ScanArgs(table, [], s)) == mid;
  }

  /** `+xmit +recv` passes the early exits and reaches the fold. */
  lemma XmitRecvReached(prog: string)
    ensures FoldReached([prog, "+xmit", "+recv"])
  {
    assert "+xmit"[..2][0] == '+' != "-?"[0];
  }

  /** `+xmit +recv` ORs both levels into the level read and writes it back. */
  lemma XmitRecvWrites(table: seq<Level>, ifname: string, seed: bv64, prog: string)
    requires IsLevelTable(table) && StartsWith(ifname, Family)
    ensures Decide(table, Some(ifname), seed, [prog, "+xmit", "+recv"]) ==
            Write(KeyOf(ifname), seed | table[1].value | table[2].value)
  {
    XmitRecvReached(prog);
    ReachesFold(table, ifname, seed, [prog, "+xmit", "+recv"]);
    assert [prog, "+xmit", "+recv"][1..] == ["+xmit", "+recv"];
    XmitRecvFold(table, FoldState(seed, false));
  }

  /** `+xmit +recv` on device `iwn0` ORs both levels into the seed and writes `dev.iwn.0.debug`. */
  lemma XmitRecvExample(table: seq<Level>, seed: bv64, prog: string)
    requires IsLevelTable(table)
    ensures Decide(table, Some("iwn0"), seed, [prog, "+xmit", "+recv"]) ==
            Write("dev.iwn.0.debug", seed | table[1].value | table[2].value)
  {
    XmitRecvWrites(table, "iwn0", seed, prog);
    assert KeyOf("iwn0") == "dev.iwn.0.debug";
  }

  /** Past the early exits, the outcome is decided by the fold alone. */
  lemma ReachesFold(table: seq<Level>, ifname: string, seed: bv64, argv: seq<string>)
    requires IsLevelTable(table) && StartsWith(ifname, Family) && FoldReached(argv)
    ensures Decide(table, Some(ifname), seed, argv) ==
            var s := ScanArgs(table, argv[1..], FoldState(seed, false));
            if s.found then Write(KeyOf(ifname), s.value) else InvalidInput
  {
  }

  /** `-xmit` passes the early exits and reaches the fold. */
  lemma MinusXmitReached(prog: string)
    ensures FoldReached([prog, "-xmit"])
  {
    assert "-xmit"[..2][1] == 'x' != "-?"[1];
    assert "-xmit"[..2][1] == 'x' != "-h"[1];
    assert LowerStr("-xmit"[..4])[0] == '-' != NoneName[0];
  }

  /** `-xmit` names entry 1. */
  lemma MinusXmitSigned(table: seq<Level>)
    requires IsLevelTable(table)
    ensures Signed("-xmit", '-', table[1])
  {
    TableNamesLower(table, 1);
    assert table[1].name == NamesOf(table)[1] == "xmit";
    assert "-xmit"[1..] == "xmit";
  }

  /** `-xmit` XORs the `xmit` value into the level read and writes it back. */
  lemma ToggleXmit(table: seq<Level>, ifname: string, seed: bv64, prog: string)
    requires IsLevelTable(table) && StartsWith(ifname, Family)
    ensures Decide(table, Some(ifname), seed, [prog, "-xmit"]) ==
            Write(KeyOf(ifname), seed ^ table[1].value)
  {
    var s := FoldState(seed, false);
    MinusXmitReached(prog);
    ReachesFold(table, ifname, seed, [prog, "-xmit"]);
    assert [prog, "-xmit"][1..] == ["-xmit"];
    SingleToken(table, "-xmit", s);
    MinusXmitSigned(table);
    MinusToken(table, 1, "-xmit", s);
  }

  /**
   * With `xmit` = 0x1, `-xmit` on level 0x3 writes 0x2 (the bit is cleared),
   * and `-xmit` on 0x2 writes 0x3 again (the bit is set: a toggle).
   */
  lemma ToggleXmitExample(values: seq<bv64>, prog: string)
    requires |values| == |LevelNames| - 1 && values[0] == 1
    ensures Decide(MakeTable(values), Some("iwn0"), 3, [prog, "-xmit"]) == Write("dev.iwn.0.debug", 2)
    ensures Decide(MakeTable(values), Some("iwn0"), 2, [prog, "-xmit"]) == Write("dev.iwn.0.debug", 3)
  {
    var table := MakeTable(values);
    assert table[1].value == 1;
    ToggleXmit(table, "iwn0", 3, prog);
    ToggleXmit(table, "iwn0", 2, prog);
    assert KeyOf("iwn0") == "dev.iwn.0.debug";
  }
}
