/**
 * What the argument loop of `main` (tools/iwn/iwndebug/main.c:194-213)
 * does to the level, in closed form.
 *
 * A token is compared with every entry, so a `+` token ORs in the OR of the
 * values of all the entries its name denotes, and a `-` token XORs in their
 * XOR (`OrMask`, `XorMask`). In a level table a name denotes at most one
 * entry, so both masks are that entry's value.
 */
module Fold {
  import opened CLib
  import opened Levels
  import opened IwnDebug

  /** The OR of the values of the entries `name` denotes. */
  function OrMask(levels: seq<Level>, name: string): bv64
    decreases |levels|
  {
    if |levels| == 0 then 0
    else
      var last := levels[|levels| - 1];
      Enable(OrMask(levels[..|levels| - 1], name), if Named(name, last) then last.value else 0)
  }

  /** The XOR of the values of the entries `name` denotes. */
  function XorMask(levels: seq<Level>, name: string): bv64
    decreases |levels|
  {
    if |levels| == 0 then 0
    else
      var last := levels[|levels| - 1];
      Toggle(XorMask(levels[..|levels| - 1], name), if Named(name, last) then last.value else 0)
  }

  /** Some entry of `levels` is denoted by `name`. */
  predicate AnyNamed(levels: seq<Level>, name: string) {
    exists i :: 0 <= i < |levels| && Named(name, levels[i])
  }

  /** The token is `+name` or `-name` for some entry of `levels`: it counts as found. */
  predicate Matches(levels: seq<Level>, tok: string) {
    |tok| > 0 && (tok[0] == '+' || tok[0] == '-') && AnyNamed(levels, tok[1..])
  }

  lemma EnableLaws(v: bv64, a: bv64, b: bv64)
    ensures Enable(Enable(v, a), b) == Enable(v, Enable(a, b))
    ensures Enable(Enable(v, a), a) == Enable(v, a)
    ensures Enable(v, 0) == v
  {
  }

  lemma ToggleLaws(v: bv64, a: bv64, b: bv64)
    ensures Toggle(Toggle(v, a), b) == Toggle(v, Toggle(a, b))
    ensures Toggle(Toggle(v, a), a) == v
    ensures Toggle(v, 0) == v
  {
    assert (v ^ a) ^ b == v ^ (a ^ b);
    assert (v ^ a) ^ a == v;
  }

  /** `found` after the entries of `levels` are scanned for `name`. */
  lemma AnyNamedSnoc(levels: seq<Level>, name: string)
    requires |levels| > 0
    ensures AnyNamed(levels, name) <==>
            AnyNamed(levels[..|levels| - 1], name) || Named(name, levels[|levels| - 1])
  {
    var init := levels[..|levels| - 1];
    if AnyNamed(levels, name) && !Named(name, levels[|levels| - 1]) {
      var i :| 0 <= i < |levels| && Named(name, levels[i]);
      assert i < |init| && Named(name, init[i]);
    }
    if AnyNamed(init, name) {
      var i :| 0 <= i < |init| && Named(name, init[i]);
      assert Named(name, levels[i]);
    }
  }

  /** A `+` token against the whole table: the inner loop ORs in the token's mask. */
  lemma {:induction false} ScanPlus(levels: seq<Level>, tok: string, s: FoldState)
    requires |tok| > 0 && tok[0] == '+'
    ensures ScanLevels(levels, tok, s) ==
            FoldState(Enable(s.value, OrMask(levels, tok[1..])), s.found || AnyNamed(levels, tok[1..]))
    decreases |levels|
  {
    if |levels| > 0 {
      var init, last, name := levels[..|levels| - 1], levels[|levels| - 1], tok[1..];
      ScanPlus(init, tok, s);
      AnyNamedSnoc(levels, name);
      PlusStep(last, tok, s.value, OrMask(init, name), s.found || AnyNamed(init, name));
    }
  }

  /** One entry against a `+` token, on a level already holding `v | m`. */
  lemma PlusStep(last: Level, tok: string, v: bv64, m: bv64, f: bool)
    requires |tok| > 0 && tok[0] == '+'
    ensures Step(last, tok, FoldState(Enable(v, m), f)) ==
            FoldState(Enable(v, Enable(m, if Named(tok[1..], last) then last.value else 0)),
                      f || Named(tok[1..], last))
  {
    assert !Signed(tok, '-', last);
    if Named(tok[1..], last) {
      EnableLaws(v, m, last.value);
    } else {
      EnableLaws(m, 0, 0);
    }
  }

  /** A `-` token against the whole table: the inner loop XORs in the token's mask. */
  lemma {:induction false} ScanMinus(levels: seq<Level>, tok: string, s: FoldState)
    requires |tok| > 0 && tok[0] == '-'
    ensures ScanLevels(levels, tok, s) ==
            FoldState(Toggle(s.value, XorMask(levels, tok[1..])), s.found || AnyNamed(levels, tok[1..]))
    decreases |levels|
  {
    if |levels| > 0 {
      var init, last, name := levels[..|levels| - 1], levels[|levels| - 1], tok[1..];
      ScanMinus(init, tok, s);
      AnyNamedSnoc(levels, name);
      var bits := if Named(name, last) then last.value else 0;
      assert ScanLevels(levels, tok, s) == Step(last, tok, ScanLevels(init, tok, s));
      assert XorMask(levels, name) == Toggle(XorMask(init, name), bits);
      MinusStep(last, tok, s.value, XorMask(init, name), s.found || AnyNamed(init, name));
    }
  }

  /** One entry against a `-` token, on a level already holding `v ^ m`. */
  lemma MinusStep(last: Level, tok: string, v: bv64, m: bv64, f: bool)
    requires |tok| > 0 && tok[0] == '-'
    ensures Step(last, tok, FoldState(Toggle(v, m), f)) ==
            FoldState(Toggle(v, Toggle(m, if Named(tok[1..], last) then last.value else 0)),
                      f || Named(tok[1..], last))
  {
    assert !Signed(tok, '+', last);
    if Named(tok[1..], last) {
      ToggleLaws(v, m, last.value);
    } else {
      ToggleLaws(m, 0, 0);
    }
  }

  /** A token with no sign is never acted on. */
  lemma {:induction false} ScanUnsigned(levels: seq<Level>, tok: string, s: FoldState)
    requires !(|tok| > 0 && (tok[0] == '+' || tok[0] == '-'))
    ensures ScanLevels(levels, tok, s) == s
    decreases |levels|
  {
    if |levels| > 0 {
      ScanUnsigned(levels[..|levels| - 1], tok, s);
    }
  }

  /** One token against the whole table: closed form of the inner loop. */
  lemma ScanLevelsEffect(levels: seq<Level>, tok: string, s: FoldState)
    ensures ScanLevels(levels, tok, s) ==
      if |tok| > 0 && tok[0] == '+' then
        FoldState(Enable(s.value, OrMask(levels, tok[1..])), s.found || AnyNamed(levels, tok[1..]))
      else if |tok| > 0 && tok[0] == '-' then
        FoldState(Toggle(s.value, XorMask(levels, tok[1..])), s.found || AnyNamed(levels, tok[1..]))
      else s
  {
    if |tok| > 0 && tok[0] == '+' {
      ScanPlus(levels, tok, s);
    } else if |tok| > 0 && tok[0] == '-' {
      ScanMinus(levels, tok, s);
    } else {
      ScanUnsigned(levels, tok, s);
    }
  }

  /** `name` denotes entry `i` of `levels` and no other. */
  predicate OnlyNamed(levels: seq<Level>, name: string, i: int) {
    0 <= i < |levels| && Named(name, levels[i]) &&
    forall j :: 0 <= j < |levels| && Named(name, levels[j]) ==> j == i
  }

  /** A name that denotes one entry only: the OR mask of a prefix has that entry's value or nothing. */
  lemma {:induction false} OrMaskOfPrefix(levels: seq<Level>, name: string, i: int, k: nat)
    requires OnlyNamed(levels, name, i) && k <= |levels|
    ensures OrMask(levels[..k], name) == if i < k then levels[i].value else 0
    decreases k
  {
    if k > 0 {
      assert levels[..k][..k - 1] == levels[..k - 1];
      assert levels[..k][k - 1] == levels[k - 1];
      OrMaskOfPrefix(levels, name, i, k - 1);
      var prev := OrMask(levels[..k - 1], name);
      if k - 1 == i {
        assert prev == 0;
        assert Enable(0, levels[i].value) == levels[i].value;
      } else {
        assert !Named(name, levels[k - 1]);
        EnableLaws(prev, 0, 0);
      }
    }
  }

  /** A name that denotes one entry only: the XOR mask of a prefix has that entry's value or nothing. */
  lemma {:induction false} XorMaskOfPrefix(levels: seq<Level>, name: string, i: int, k: nat)
    requires OnlyNamed(levels, name, i) && k <= |levels|
    ensures XorMask(levels[..k], name) == if i < k then levels[i].value else 0
    decreases k
  {
    if k > 0 {
      assert levels[..k][..k - 1] == levels[..k - 1];
      assert levels[..k][k - 1] == levels[k - 1];
      XorMaskOfPrefix(levels, name, i, k - 1);
      var prev := XorMask(levels[..k - 1], name);
      if k - 1 == i {
        assert prev == 0;
        assert Toggle(0, levels[i].value) == levels[i].value;
      } else {
        assert !Named(name, levels[k - 1]);
        ToggleLaws(prev, 0, 0);
      }
    }
  }

  /** The whole mask of a name that denotes entry `i` is that entry's value. */
  lemma MasksOfName(table: seq<Level>, name: string, i: int)
    requires IsLevelTable(table) && 0 <= i < |table| && Named(name, table[i])
    ensures OrMask(table, name) == table[i].value && XorMask(table, name) == table[i].value
    ensures AnyNamed(table, name)
  {
    forall j | 0 <= j < |table| && Named(name, table[j]) ensures j == i {
      NamedUnique(table, name, i, j);
    }
    OrMaskOfPrefix(table, name, i, |table|);
    XorMaskOfPrefix(table, name, i, |table|);
    assert table[..|table|] == table;
  }

  /** `+name` for entry `i` ORs in exactly that entry's value and counts as found (main.c:198-200). */
  lemma PlusToken(table: seq<Level>, i: int, tok: string, s: FoldState)
    requires IsLevelTable(table) && 0 <= i < |table| && Signed(tok, '+', table[i])
    ensures ScanLevels(table, tok, s) == FoldState(s.value | table[i].value, true)
  {
    ScanLevelsEffect(table, tok, s);
    MasksOfName(table, tok[1..], i);
  }

  /** `-name` for entry `i` XORs in exactly that entry's value and counts as found (main.c:201-203). */
  lemma MinusToken(table: seq<Level>, i: int, tok: string, s: FoldState)
    requires IsLevelTable(table) && 0 <= i < |table| && Signed(tok, '-', table[i])
    ensures ScanLevels(table, tok, s) == FoldState(s.value ^ table[i].value, true)
  {
    ScanLevelsEffect(table, tok, s);
    MasksOfName(table, tok[1..], i);
  }

  /** A token that names no entry, or carries no sign, changes nothing. */
  lemma UnmatchedToken(levels: seq<Level>, tok: string, s: FoldState)
    requires !Matches(levels, tok)
    ensures ScanLevels(levels, tok, s) == s
  {
    ScanLevelsEffect(levels, tok, s);
    if |tok| > 0 && (tok[0] == '+' || tok[0] == '-') {
      NoMasks(levels, tok[1..]);
      EnableLaws(s.value, 0, 0);
      ToggleLaws(s.value, 0, 0);
    }
  }

  lemma {:induction false} NoMasks(levels: seq<Level>, name: string)
    requires !AnyNamed(levels, name)
    ensures OrMask(levels, name) == 0 && XorMask(levels, name) == 0
    decreases |levels|
  {
    if |levels| > 0 {
      var init := levels[..|levels| - 1];
      assert !AnyNamed(init, name) by {
        forall i | 0 <= i < |init| ensures !Named(name, init[i]) { assert init[i] == levels[i]; }
      }
      assert !Named(name, levels[|levels| - 1]);
      NoMasks(init, name);
      EnableLaws(0, 0, 0);
      ToggleLaws(0, 0, 0);
    }
  }

  /** Any token but a `-` one is idempotent: applying it twice is applying it once. */
  lemma TokenIdempotent(levels: seq<Level>, tok: string, s: FoldState)
    requires !(|tok| > 0 && tok[0] == '-')
    ensures ScanLevels(levels, tok, ScanLevels(levels, tok, s)) == ScanLevels(levels, tok, s)
  {
    ScanLevelsEffect(levels, tok, s);
    ScanLevelsEffect(levels, tok, ScanLevels(levels, tok, s));
    if |tok| > 0 {
      EnableLaws(s.value, OrMask(levels, tok[1..]), 0);
    }
  }

  /** A `-` token is an involution on the level: applying it twice gives the level back. */
  lemma MinusInvolution(levels: seq<Level>, tok: string, s: FoldState)
    requires |tok| > 0 && tok[0] == '-'
    ensures ScanLevels(levels, tok, ScanLevels(levels, tok, s)).value == s.value
  {
    ScanLevelsEffect(levels, tok, s);
    ScanLevelsEffect(levels, tok, ScanLevels(levels, tok, s));
    ToggleLaws(s.value, XorMask(levels, tok[1..]), 0);
  }

  /** `found` is set by a token exactly when that token names an entry with a sign. */
  lemma FoundByToken(levels: seq<Level>, tok: string, s: FoldState)
    ensures ScanLevels(levels, tok, s).found <==> s.found || Matches(levels, tok)
  {
    ScanLevelsEffect(levels, tok, s);
  }

  /** Tokens are applied left to right: the fold over `a + b` is the fold over `b` after the fold over `a`. */
  lemma {:induction false} ScanArgsAppend(table: seq<Level>, a: seq<string>, b: seq<string>, s: FoldState)
    ensures ScanArgs(table, a + b, s) == ScanArgs(table, b, ScanArgs(table, a, s))
    decreases |b|
  {
    if |b| == 0 {
      assert a + b == a;
    } else {
      assert (a + b)[..|a + b| - 1] == a + b[..|b| - 1];
      assert (a + b)[|a + b| - 1] == b[|b| - 1];
      ScanArgsAppend(table, a, b[..|b| - 1], s);
    }
  }

  /** The whole loop sets `found` exactly when some token matches some entry (main.c:199, 202, 210). */
  lemma {:induction false} FoundIff(table: seq<Level>, toks: seq<string>, s: FoldState)
    ensures ScanArgs(table, toks, s).found <==>
            s.found || exists k :: 0 <= k < |toks| && Matches(table, toks[k])
    decreases |toks|
  {
    if |toks| > 0 {
      var init := toks[..|toks| - 1];
      FoundIff(table, init, s);
      FoundByToken(table, toks[|toks| - 1], ScanArgs(table, init, s));
      if exists k :: 0 <= k < |toks| && Matches(table, toks[k]) {
        var k :| 0 <= k < |toks| && Matches(table, toks[k]);
        if k < |init| {
          assert Matches(table, init[k]);
        }
      }
      if exists k :: 0 <= k < |init| && Matches(table, init[k]) {
        var k :| 0 <= k < |init| && Matches(table, init[k]);
        assert Matches(table, toks[k]);
      }
    }
  }

  /** When no token matches, the loop leaves the state as it was. */
  lemma {:induction false} NoMatchNoChange(table: seq<Level>, toks: seq<string>, s: FoldState)
    requires forall k :: 0 <= k < |toks| ==> !Matches(table, toks[k])
    ensures ScanArgs(table, toks, s) == s
    decreases |toks|
  {
    if |toks| > 0 {
      var init := toks[..|toks| - 1];
      assert forall k :: 0 <= k < |init| ==> init[k] == toks[k];
      NoMatchNoChange(table, init, s);
      UnmatchedToken(table, toks[|toks| - 1], s);
    }
  }

  /** All tokens carry `sign`. */
  predicate AllSigned(toks: seq<string>, sign: char) {
    forall k :: 0 <= k < |toks| ==> |toks[k]| > 0 && toks[k][0] == sign
  }

  /** What a list of `+` tokens ORs in: the OR of their masks. */
  function PlusTotal(table: seq<Level>, toks: seq<string>): bv64
    requires AllSigned(toks, '+')
    decreases |toks|
  {
    if |toks| == 0 then 0
    else Enable(PlusTotal(table, toks[..|toks| - 1]), OrMask(table, toks[|toks| - 1][1..]))
  }

  /** What a list of `-` tokens XORs in: the XOR of their masks. */
  function MinusTotal(table: seq<Level>, toks: seq<string>): bv64
    requires AllSigned(toks, '-')
    decreases |toks|
  {
    if |toks| == 0 then 0
    else Toggle(MinusTotal(table, toks[..|toks| - 1]), XorMask(table, toks[|toks| - 1][1..]))
  }

  /** A list of `+` tokens ORs one mask, fixed by the tokens, into the level. */
  lemma {:induction false} ScanAllPlus(table: seq<Level>, toks: seq<string>, s: FoldState)
    requires AllSigned(toks, '+')
    ensures ScanArgs(table, toks, s).value == Enable(s.value, PlusTotal(table, toks))
    decreases |toks|
  {
    if |toks| == 0 {
      EnableLaws(s.value, 0, 0);
    } else {
      var init, last := toks[..|toks| - 1], toks[|toks| - 1];
      assert AllSigned(init, '+') by {
        forall k | 0 <= k < |init| ensures |init[k]| > 0 && init[k][0] == '+' { assert init[k] == toks[k]; }
      }
      ScanAllPlus(table, init, s);
      ScanPlus(table, last, ScanArgs(table, init, s));
      EnableLaws(s.value, PlusTotal(table, init), OrMask(table, last[1..]));
    }
  }

  /** A list of `-` tokens XORs one mask, fixed by the tokens, into the level. */
  lemma {:induction false} ScanAllMinus(table: seq<Level>, toks: seq<string>, s: FoldState)
    requires AllSigned(toks, '-')
    ensures ScanArgs(table, toks, s).value == Toggle(s.value, MinusTotal(table, toks))
    decreases |toks|
  {
    if |toks| == 0 {
      ToggleLaws(s.value, 0, 0);
    } else {
      var init, last := toks[..|toks| - 1], toks[|toks| - 1];
      assert AllSigned(init, '-') by {
        forall k | 0 <= k < |init| ensures |init[k]| > 0 && init[k][0] == '-' { assert init[k] == toks[k]; }
      }
      ScanAllMinus(table, init, s);
      ScanMinus(table, last, ScanArgs(table, init, s));
      ToggleLaws(s.value, MinusTotal(table, init), XorMask(table, last[1..]));
    }
  }
}
