/** The grammar engine of `LSystem`: an alphabet of (character, action)
    constants, an axiom over that alphabet, one deterministic expansion per
    constant, and generation-by-generation rewriting. Every operation takes
    the engine as a value and returns the updated engine. */
module Grammar {
  import opened Base

  /** The turtle action attached to a constant. */
  datatype Action = NoAction | MoveForward | DrawForward | RotateCW | RotateCCW | PushState | PopState

  /** A constant is a (character, action) pair; two constants are equal only
      when both fields are. */
  datatype Constant = Constant(ch: char, action: Action)

  /** At most one expansion per constant, keyed by the whole pair. */
  type Rules = map<Constant, seq<Constant>>

  datatype LSystem = LSystem(constants: seq<Constant>, axiom: seq<Constant>, rules: Rules)

  /** The result of an operation that reports success with a boolean. */
  datatype Updated = Updated(ok: bool, sys: LSystem)

  /** The result of mapping a string onto constants, appended to a vector. */
  datatype Appended = Appended(ok: bool, out: seq<Constant>)

  const Fresh: LSystem := LSystem([], [], map[])

  predicate Registered(constants: seq<Constant>, ch: char) {
    exists i :: 0 <= i < |constants| && constants[i].ch == ch
  }

  /** Position of the first constant carrying `ch` (the `find_if` scan). */
  function FirstIndex(constants: seq<Constant>, ch: char): (r: Option<nat>)
    ensures r.None? <==> !Registered(constants, ch)
    ensures r.Some? ==> r.value < |constants| && constants[r.value].ch == ch
    ensures r.Some? ==> forall j :: 0 <= j < r.value ==> constants[j].ch != ch
  {
    if |constants| == 0 then None
    else if constants[0].ch == ch then Some(0)
    else
      match FirstIndex(constants[1..], ch)
      case None =>
        assert forall i :: 1 <= i < |constants| ==> constants[i] == constants[1..][i - 1];
        None
      case Some(i) => Some(i + 1)
  }

  /** The constant a character maps to: the first registered one. */
  function Lookup(constants: seq<Constant>, ch: char): (r: Option<Constant>)
    ensures r.None? <==> !Registered(constants, ch)
    ensures r.Some? ==> r.value.ch == ch && r.value in constants
  {
    match FirstIndex(constants, ch)
    case None => None
    case Some(i) => Some(constants[i])
  }

  /** A constant that lookups can return: the first one with its character.
      A later constant that repeats a character is shadowed forever. */
  predicate Canonical(constants: seq<Constant>, c: Constant) {
    Lookup(constants, c.ch) == Some(c)
  }

  /** Every character of `s` is registered. */
  predicate AllRegistered(constants: seq<Constant>, s: string) {
    forall i :: 0 <= i < |s| ==> Registered(constants, s[i])
  }

  /** `SplitStringIntoConstants`: append the constant of each character of
      `input` to `out`, in order, stopping at the first unregistered
      character. What was appended before the failure stays appended. */
  function SplitIntoConstants(constants: seq<Constant>, input: string, out: seq<Constant>): (r: Appended)
    ensures |out| <= |r.out| && r.out[..|out|] == out
    ensures r.ok <==> AllRegistered(constants, input)
    ensures |r.out| <= |out| + |input|
    ensures r.ok ==> |r.out| == |out| + |input|
    ensures !r.ok ==> |r.out| - |out| < |input|
    ensures !r.ok ==> !Registered(constants, input[|r.out| - |out|])
    ensures forall i :: |out| <= i < |r.out| ==> Lookup(constants, input[i - |out|]) == Some(r.out[i])
    decreases |input|
  {
    if |input| == 0 then Appended(true, out)
    else
      match Lookup(constants, input[0])
      case None => Appended(false, out)
      case Some(c) =>
        var r := SplitIntoConstants(constants, input[1..], out + [c]);
        assert forall i :: 1 <= i < |input| ==> input[i] == input[1..][i - 1];
        assert AllRegistered(constants, input[1..]) ==> AllRegistered(constants, input);
        r
  }

  /** There is no rollback: the result does not depend on the vector's
      earlier contents (the same symbols as for an empty vector, placed
      after the old contents, with the same verdict), and a failure keeps
      every symbol mapped before the first unregistered character. */
  lemma {:induction false} SplitNoRollback(constants: seq<Constant>, input: string, out: seq<Constant>)
    ensures SplitIntoConstants(constants, input, out).out == out + SplitIntoConstants(constants, input, []).out
    ensures SplitIntoConstants(constants, input, out).ok == SplitIntoConstants(constants, input, []).ok
    ensures var r := SplitIntoConstants(constants, input, out);
      !r.ok ==> var k := |r.out| - |out|;
        && 0 <= k < |input|
        && (forall i :: 0 <= i < k ==> Registered(constants, input[i]))
        && !Registered(constants, input[k])
    decreases |input|
  {
    StopsAtFirstUnknown(constants, input, out);
    if |input| > 0 {
      match Lookup(constants, input[0])
      case None =>
      case Some(c) =>
        var tail := SplitIntoConstants(constants, input[1..], []);
        SplitNoRollback(constants, input[1..], out + [c]);
        SplitNoRollback(constants, input[1..], [c]);
        assert [] + [c] == [c];
        assert SplitIntoConstants(constants, input, []) == SplitIntoConstants(constants, input[1..], [c]);
        assert SplitIntoConstants(constants, input, out) == SplitIntoConstants(constants, input[1..], out + [c]);
        AppendAssoc(out, [c], tail.out);
    }
  }

  /** A failed mapping stops at the first unregistered character. */
  lemma StopsAtFirstUnknown(constants: seq<Constant>, input: string, out: seq<Constant>)
    ensures var r := SplitIntoConstants(constants, input, out);
      !r.ok ==> var k := |r.out| - |out|;
        && 0 <= k < |input|
        && (forall i :: 0 <= i < k ==> Registered(constants, input[i]))
        && !Registered(constants, input[k])
  {
    var r := SplitIntoConstants(constants, input, out);
    if !r.ok {
      forall i | 0 <= i < |r.out| - |out| ensures Registered(constants, input[i]) {
        assert Lookup(constants, input[(i + |out|) - |out|]) == Some(r.out[i + |out|]);
      }
    }
  }

  /** `AddConstant`: register one more constant at the end of the alphabet. */
  function AddConstant(sys: LSystem, ch: char, action: Action): (r: LSystem)
    ensures r.axiom == sys.axiom && r.rules == sys.rules
    ensures |r.constants| == |sys.constants| + 1
    ensures Registered(r.constants, ch)
    // an already registered character keeps mapping to its earlier constant
    ensures Registered(sys.constants, ch) ==> Lookup(r.constants, ch) == Lookup(sys.constants, ch)
    ensures !Registered(sys.constants, ch) ==> Lookup(r.constants, ch) == Some(Constant(ch, action))
    ensures forall d :: d != ch ==> Lookup(r.constants, d) == Lookup(sys.constants, d)
  {
    var cs := sys.constants + [Constant(ch, action)];
    assert cs[|sys.constants|].ch == ch;
    LookupExtend(sys.constants, Constant(ch, action));
    sys.(constants := cs)
  }

  lemma LookupExtend(constants: seq<Constant>, c: Constant)
    ensures Registered(constants, c.ch) ==> Lookup(constants + [c], c.ch) == Lookup(constants, c.ch)
    ensures !Registered(constants, c.ch) ==> Lookup(constants + [c], c.ch) == Some(c)
    ensures forall d :: d != c.ch ==> Lookup(constants + [c], d) == Lookup(constants, d)
  {
    var cs := constants + [c];
    forall d
      ensures Registered(constants, d) ==> FirstIndex(cs, d) == FirstIndex(constants, d)
      ensures !Registered(constants, d) && d != c.ch ==> FirstIndex(cs, d).None?
    {
      if Registered(constants, d) {
        var i := FirstIndex(constants, d).value;
        assert cs[i].ch == d;
        forall j | 0 <= j < i ensures cs[j].ch != d {
          assert cs[j] == constants[j];
        }
      } else if d != c.ch {
        forall i | 0 <= i < |cs| ensures cs[i].ch != d {
          if i < |constants| {
            assert cs[i] == constants[i];
          }
        }
      }
    }
    if !Registered(constants, c.ch) {
      assert cs[|constants|].ch == c.ch;
      forall j | 0 <= j < |constants| ensures cs[j].ch != c.ch {
        assert cs[j] == constants[j];
      }
    }
  }

  /** `SetAxiom`: map the string onto constants and APPEND it to the axiom;
      a failure leaves the prefix before the unknown character appended. */
  function SetAxiom(sys: LSystem, s: string): (r: Updated)
    ensures r.sys.constants == sys.constants && r.sys.rules == sys.rules
    ensures r.ok <==> AllRegistered(sys.constants, s)
    ensures |sys.axiom| <= |r.sys.axiom| && r.sys.axiom[..|sys.axiom|] == sys.axiom
    ensures |r.sys.axiom| <= |sys.axiom| + |s|
    ensures r.ok ==> |r.sys.axiom| == |sys.axiom| + |s|
    // on failure, exactly the symbols before the first unknown character
    // were appended
    ensures !r.ok ==> |r.sys.axiom| - |sys.axiom| < |s| && !Registered(sys.constants, s[|r.sys.axiom| - |sys.axiom|])
    ensures forall i :: |sys.axiom| <= i < |r.sys.axiom| ==> Lookup(sys.constants, s[i - |sys.axiom|]) == Some(r.sys.axiom[i])
  {
    var a := SplitIntoConstants(sys.constants, s, sys.axiom);
    Updated(a.ok, sys.(axiom := a.out))
  }

  /** Setting the axiom twice accumulates both strings. */
  lemma SetAxiomTwice(sys: LSystem, s: string, t: string)
    requires SetAxiom(sys, s).ok
    ensures SetAxiom(SetAxiom(sys, s).sys, t) == SetAxiom(sys, s + t)
  {
    SplitConcat(sys.constants, s, t, sys.axiom);
  }

  /** Mapping `s + t` is mapping `s`, then, if that succeeded, mapping `t`
      after it. */
  lemma {:induction false} SplitConcat(constants: seq<Constant>, s: string, t: string, out: seq<Constant>)
    ensures var a := SplitIntoConstants(constants, s, out);
      SplitIntoConstants(constants, s + t, out) ==
      if a.ok then SplitIntoConstants(constants, t, a.out) else a
    decreases |s|
  {
    if |s| == 0 {
      assert s + t == t;
    } else {
      assert (s + t)[0] == s[0];
      assert (s + t)[1..] == s[1..] + t;
      match Lookup(constants, s[0])
      case None =>
      case Some(c) => SplitConcat(constants, s[1..], t, out + [c]);
    }
  }

  /** `SetConstantRule`: the rule is stored for the FIRST constant carrying
      `ch`, replacing any earlier expansion; on an unknown character (in
      `ch` or in the expansion) nothing changes. */
  function SetConstantRule(sys: LSystem, ch: char, rule: string): (r: Updated)
    ensures r.sys.constants == sys.constants && r.sys.axiom == sys.axiom
    ensures r.ok <==> Registered(sys.constants, ch) && AllRegistered(sys.constants, rule)
    ensures !r.ok ==> r.sys == sys
    ensures r.ok ==> var k := Lookup(sys.constants, ch).value;
      && r.sys.rules.Keys == sys.rules.Keys + {k}
      && |r.sys.rules[k]| == |rule|
      && (forall i :: 0 <= i < |rule| ==> Lookup(sys.constants, rule[i]) == Some(r.sys.rules[k][i]))
      && (forall c :: c in sys.rules && c != k ==> r.sys.rules[c] == sys.rules[c])
  {
    match Lookup(sys.constants, ch)
    case None => Updated(false, sys)
    case Some(k) =>
      var a := SplitIntoConstants(sys.constants, rule, []);
      if a.ok then Updated(true, sys.(rules := sys.rules[k := a.out])) else Updated(false, sys)
  }

  /** The expansion a constant contributes to the next generation: its rule,
      or nothing at all when it has none. */
  function Expansion(rules: Rules, c: Constant): seq<Constant> {
    if c in rules then rules[c] else []
  }

  /** One rewriting pass: the in-order concatenation of the expansions. */
  function Expand(rules: Rules, s: seq<Constant>): (r: seq<Constant>)
    ensures forall c :: c in r ==> exists i :: 0 <= i < |s| && s[i] in rules && c in rules[s[i]]
  {
    if |s| == 0 then []
    else
      var r := Expansion(rules, s[0]) + Expand(rules, s[1..]);
      assert forall i :: 1 <= i < |s| ==> s[i] == s[1..][i - 1];
      r
  }

  /** `GenerateNthAxiom`: generation 1 is the axiom itself; generation n is
      one rewriting pass over generation n - 1. When every symbol that can
      occur is registered, so is every symbol produced. */
  function Generate(sys: LSystem, n: nat): (r: seq<Constant>)
    requires n >= 1
    ensures WellFormed(sys) ==> forall c :: c in r ==> c in sys.constants
    decreases n
  {
    if n == 1 then sys.axiom else Expand(sys.rules, Generate(sys, n - 1))
  }

  /** The closure invariant: axiom, rule keys and rule bodies all use
      registered constants. */
  predicate WellFormed(sys: LSystem) {
    && (forall c :: c in sys.axiom ==> c in sys.constants)
    && (forall k :: k in sys.rules ==> k in sys.constants)
    && (forall k, c :: k in sys.rules && c in sys.rules[k] ==> c in sys.constants)
  }

  /** Every operation that builds the engine keeps it well formed. */
  lemma BuildersPreserveWellFormed(sys: LSystem, ch: char, action: Action, s: string)
    requires WellFormed(sys)
    ensures WellFormed(Fresh)
    ensures WellFormed(AddConstant(sys, ch, action))
    ensures WellFormed(SetAxiom(sys, s).sys)
    ensures WellFormed(SetConstantRule(sys, ch, s).sys)
  {
    SetAxiomWellFormed(sys, s);
    SetConstantRuleWellFormed(sys, ch, s);
  }

  /** Appended axiom symbols are registered constants. */
  lemma SetAxiomWellFormed(sys: LSystem, s: string)
    requires WellFormed(sys)
    ensures WellFormed(SetAxiom(sys, s).sys)
  {
    var a := SetAxiom(sys, s).sys;
    forall c | c in a.axiom ensures c in sys.constants {
      var i :| 0 <= i < |a.axiom| && a.axiom[i] == c;
      if i >= |sys.axiom| {
        assert Lookup(sys.constants, s[i - |sys.axiom|]) == Some(c);
      } else {
        assert a.axiom[..|sys.axiom|][i] == c;
      }
    }
  }

  /** A stored rule is keyed by, and expands to, registered constants. */
  lemma SetConstantRuleWellFormed(sys: LSystem, ch: char, s: string)
    requires WellFormed(sys)
    ensures WellFormed(SetConstantRule(sys, ch, s).sys)
  {
    var u := SetConstantRule(sys, ch, s);
    if u.ok {
      var k := Lookup(sys.constants, ch).value;
      var body := u.sys.rules[k];
      forall c | c in body ensures c in sys.constants {
        var i :| 0 <= i < |body| && body[i] == c;
        assert Lookup(sys.constants, s[i]) == Some(c);
      }
      StoreRuleWellFormed(sys, k, u.sys.rules);
    }
  }

  /** Storing one rule over registered constants keeps the engine well
      formed, whatever it replaces. */
  lemma StoreRuleWellFormed(sys: LSystem, k: Constant, rules: Rules)
    requires WellFormed(sys)
    requires k in sys.constants && k in rules
    requires forall c :: c in rules[k] ==> c in sys.constants
    requires rules.Keys == sys.rules.Keys + {k}
    requires forall c :: c in sys.rules && c != k ==> rules[c] == sys.rules[c]
    ensures WellFormed(sys.(rules := rules))
  {
    forall j, c | j in rules && c in rules[j] ensures c in sys.constants {
      if j != k {
        assert rules[j] == sys.rules[j];
      }
    }
  }

  /** Splitting a pass over a concatenation. */
  lemma {:induction false} ExpandAppend(rules: Rules, a: seq<Constant>, b: seq<Constant>)
    ensures Expand(rules, a + b) == Expand(rules, a) + Expand(rules, b)
    decreases |a|
  {
    if |a| == 0 {
      assert a + b == b;
    } else {
      assert (a + b)[0] == a[0];
      assert (a + b)[1..] == a[1..] + b;
      ExpandAppend(rules, a[1..], b);
      AppendAssoc(Expansion(rules, a[0]), Expand(rules, a[1..]), Expand(rules, b));
    }
  }

  /** Length contributed by one symbol: 0 when it has no rule. */
  function RuleLength(rules: Rules, c: Constant): nat {
    if c in rules then |rules[c]| else 0
  }

  /** Sum of rule lengths, accumulated from the back of the sequence. */
  function TotalRuleLength(rules: Rules, s: seq<Constant>): nat {
    if |s| == 0 then 0 else TotalRuleLength(rules, s[..|s| - 1]) + RuleLength(rules, s[|s| - 1])
  }

  /** The length of a pass is the sum over the symbols of their rule length. */
  lemma {:induction false} ExpandLength(rules: Rules, s: seq<Constant>)
    ensures |Expand(rules, s)| == TotalRuleLength(rules, s)
    decreases |s|
  {
    if |s| > 0 {
      var init := s[..|s| - 1];
      var last := s[|s| - 1];
      assert s == init + [last];
      ExpandAppend(rules, init, [last]);
      ExpandLength(rules, init);
      assert [last][1..] == [];
    }
  }

  /** |gen(n)| = sum over gen(n - 1) of the rule lengths. */
  lemma GenerateLength(sys: LSystem, n: nat)
    requires n > 1
    ensures |Generate(sys, n)| == TotalRuleLength(sys.rules, Generate(sys, n - 1))
  {
    ExpandLength(sys.rules, Generate(sys, n - 1));
  }

  /** Every rule maps its constant to itself. */
  predicate IdentityRules(rules: Rules) {
    forall k :: k in rules ==> rules[k] == [k]
  }

  /** Under identity rules a pass over rule-carrying symbols is the identity. */
  lemma {:induction false} ExpandIdentity(rules: Rules, s: seq<Constant>)
    requires IdentityRules(rules)
    requires forall c :: c in s ==> c in rules
    ensures Expand(rules, s) == s
    decreases |s|
  {
    if |s| > 0 {
      assert s[0] in s;
      assert forall c :: c in s[1..] ==> c in s;
      ExpandIdentity(rules, s[1..]);
      assert s == [s[0]] + s[1..];
    }
  }

  /** With identity rules for every axiom symbol, every generation is the
      axiom. */
  lemma {:induction false} IdentityRulesFixAxiom(sys: LSystem, n: nat)
    requires n >= 1
    requires IdentityRules(sys.rules)
    requires forall c :: c in sys.axiom ==> c in sys.rules
    ensures Generate(sys, n) == sys.axiom
    decreases n
  {
    if n > 1 {
      IdentityRulesFixAxiom(sys, n - 1);
      ExpandIdentity(sys.rules, sys.axiom);
    }
  }

  /** The configuration default for constant `ch` is the one-character
      string `ch`; for a registered character this always succeeds and makes
      the rule of its canonical constant the identity. */
  lemma DefaultRuleIsIdentity(sys: LSystem, ch: char)
    requires Registered(sys.constants, ch)
    ensures var r := SetConstantRule(sys, ch, [ch]);
      var k := Lookup(sys.constants, ch).value;
      r.ok && r.sys.rules[k] == [k]
  {
    assert AllRegistered(sys.constants, [ch]);
  }

  /** Apply the default rule for each character in turn, as the loader does
      for the characters of the alphabet when no rule is configured. */
  function ApplyDefaultRules(sys: LSystem, chars: string): (r: LSystem)
    ensures r.constants == sys.constants && r.axiom == sys.axiom
    decreases |chars|
  {
    if |chars| == 0 then sys
    else ApplyDefaultRules(SetConstantRule(sys, chars[0], [chars[0]]).sys, chars[1..])
  }

  /** The characters of the alphabet, in registration order. */
  function Chars(constants: seq<Constant>): (r: string)
    ensures |r| == |constants| && forall i :: 0 <= i < |r| ==> r[i] == constants[i].ch
  {
    if |constants| == 0 then [] else [constants[0].ch] + Chars(constants[1..])
  }

  /** One default rule keeps the rules identities, drops no rule, and gives
      the canonical constant of a registered character a rule. */
  lemma DefaultRuleStep(sys: LSystem, ch: char)
    requires IdentityRules(sys.rules)
    ensures var next := SetConstantRule(sys, ch, [ch]).sys;
      && IdentityRules(next.rules)
      && sys.rules.Keys <= next.rules.Keys
      && (Registered(sys.constants, ch) ==> Lookup(sys.constants, ch).value in next.rules)
  {
    var r := SetConstantRule(sys, ch, [ch]);
    if Registered(sys.constants, ch) {
      DefaultRuleIsIdentity(sys, ch);
      var k := Lookup(sys.constants, ch).value;
      forall c | c in r.sys.rules ensures r.sys.rules[c] == [c] {
        if c != k {
          assert c in sys.rules;
        }
      }
    } else {
      assert r.sys == sys;
    }
  }

  /** After the default rules, the rules are identities and every canonical
      constant of a listed character has one. */
  lemma {:induction false} DefaultRulesShape(sys: LSystem, chars: string)
    requires IdentityRules(sys.rules)
    ensures IdentityRules(ApplyDefaultRules(sys, chars).rules)
    ensures sys.rules.Keys <= ApplyDefaultRules(sys, chars).rules.Keys
    ensures forall i :: 0 <= i < |chars| && Registered(sys.constants, chars[i]) ==>
      Lookup(sys.constants, chars[i]).value in ApplyDefaultRules(sys, chars).rules
    decreases |chars|
  {
    if |chars| > 0 {
      var next := SetConstantRule(sys, chars[0], [chars[0]]).sys;
      DefaultRuleStep(sys, chars[0]);
      DefaultRulesShape(next, chars[1..]);
      var last := ApplyDefaultRules(sys, chars);
      assert last == ApplyDefaultRules(next, chars[1..]);
      forall i | 0 <= i < |chars| && Registered(sys.constants, chars[i])
        ensures Lookup(sys.constants, chars[i]).value in last.rules
      {
        if i > 0 {
          assert chars[1..][i - 1] == chars[i];
        }
      }
    }
  }

  /** With no configured rules, the alphabet's default rules make every
      generation of an axiom built by `SetAxiom` equal to that axiom. */
  lemma DefaultRulesFixAxiom(sys: LSystem, n: nat)
    requires n >= 1
    requires sys.rules == map[]
    requires forall c :: c in sys.axiom ==> Canonical(sys.constants, c)
    ensures Generate(ApplyDefaultRules(sys, Chars(sys.constants)), n) == sys.axiom
  {
    var chars := Chars(sys.constants);
    var d := ApplyDefaultRules(sys, chars);
    DefaultRulesShape(sys, chars);
    forall c | c in d.axiom ensures c in d.rules {
      var j := FirstIndex(sys.constants, c.ch).value;
      assert chars[j] == c.ch;
    }
    IdentityRulesFixAxiom(d, n);
  }

  /** Every symbol `SetAxiom` appends is canonical. */
  lemma SetAxiomCanonical(sys: LSystem, s: string)
    requires forall c :: c in sys.axiom ==> Canonical(sys.constants, c)
    ensures forall c :: c in SetAxiom(sys, s).sys.axiom ==> Canonical(sys.constants, c)
  {
    var a := SetAxiom(sys, s).sys.axiom;
    forall c | c in a ensures Canonical(sys.constants, c) {
      var i :| 0 <= i < |a| && a[i] == c;
      if i < |sys.axiom| {
        assert a[..|sys.axiom|][i] == c;
      } else {
        assert Lookup(sys.constants, s[i - |sys.axiom|]) == Some(c);
      }
    }
  }
}
