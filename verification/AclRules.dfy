/** What command rules mean, and why the retained rule text regenerates the
    permissions (src/acl.c). */
module AclRules {
  import opened SdsArgs
  import opened AclText

  // ------------------------------------------------------ effects of rules

  /** USER_COMMAND_BITS_COUNT; its last bit is reserved for +@all. */
  const BITS := 1024
  const FUTURE := BITS - 1

  /** The permissions of a selector: the allowed command ids and, per id, the
      allowed first arguments in lower case. */
  datatype State = State(bits: set<nat>, firstArgs: map<nat, set<string>>)

  /** A rule sets or clears bits and resets first arguments, or adds a first
      argument. */
  datatype Effect = Perm(bits: set<nat>, resets: set<nat>, allow: bool) | Add(id: nat, arg: string)

  datatype Rule = Rule(allow: bool, body: string, effect: Effect)

  function Token(r: Rule): string { [if r.allow then '+' else '-'] + r.body }

  function Tokens(rules: seq<Rule>): seq<string> { seq(|rules|, i requires 0 <= i < |rules| => Token(rules[i])) }

  function ArgsOf(s: State, id: nat): set<string> { if id in s.firstArgs then s.firstArgs[id] else {} }

  function Apply(s: State, e: Effect): State {
    match e
    case Perm(bits, resets, allow) =>
      State(if allow then s.bits + bits else s.bits - bits, s.firstArgs - resets)
    case Add(id, arg) => State(s.bits, s.firstArgs[id := ArgsOf(s, id) + {arg}])
  }

  function Replay(s: State, rules: seq<Rule>): State
    decreases |rules|
  {
    if rules == [] then s else Replay(Apply(s, rules[0].effect), rules[1..])
  }

  /** The state after +@all or -@all. */
  function Base(future: bool): State { State(if future then UpTo(BITS) else {}, map[]) }

  function UpTo(n: nat): (s: set<nat>)
    ensures forall i: nat :: i in s <==> i < n
  {
    if n == 0 then {} else UpTo(n - 1) + {n - 1}
  }

  lemma {:induction false} ReplayLast(s: State, rules: seq<Rule>, r: Rule)
    ensures Replay(s, rules + [r]) == Apply(Replay(s, rules), r.effect)
    decreases |rules|
  {
    if rules != [] {
      assert (rules + [r])[1..] == rules[1..] + [r];
      ReplayLast(Apply(s, rules[0].effect), rules[1..], r);
    }
  }

  // ---------------------------------------------------------- absorption

  /** Everything the effect `e` changes is decided again by `later`. */
  predicate Covers(later: Effect, e: Effect) {
    match e
    case Perm(bits, resets, _) => later.Perm? && bits <= later.bits && resets <= later.resets
    case Add(id, arg) => if later.Perm? then id in later.resets else later == e
  }

  /** States that differ at most in what the effect `e` changes. */
  ghost predicate Agree(e: Effect, s: State, t: State) {
    match e
    case Perm(bits, resets, _) => s.bits - bits == t.bits - bits && s.firstArgs - resets == t.firstArgs - resets
    case Add(id, arg) =>
      && s.bits == t.bits
      && s.firstArgs - {id} == t.firstArgs - {id}
      && ArgsOf(s, id) - {arg} == ArgsOf(t, id) - {arg}
  }

  lemma AgreeApplied(e: Effect, s: State)
    ensures Agree(e, s, Apply(s, e))
  {
  }

  lemma SubtractUpdate<V>(m: map<nat, V>, n: map<nat, V>, ids: set<nat>, k: nat, v: V)
    requires m - ids == n - ids
    ensures m[k := v] - ids == n[k := v] - ids
  {
    assert m[k := v] - ids == if k in ids then m - ids else (m - ids)[k := v];
    assert n[k := v] - ids == if k in ids then n - ids else (n - ids)[k := v];
  }

  lemma SameArgs(s: State, t: State, ids: set<nat>, id: nat)
    requires s.firstArgs - ids == t.firstArgs - ids && id !in ids
    ensures ArgsOf(s, id) == ArgsOf(t, id)
  {
    assert id in s.firstArgs <==> id in s.firstArgs - ids;
    assert id in t.firstArgs <==> id in t.firstArgs - ids;
    if id in s.firstArgs {
      assert s.firstArgs[id] == (s.firstArgs - ids)[id];
      assert t.firstArgs[id] == (t.firstArgs - ids)[id];
    }
  }

  lemma SubtractTwice<V>(m: map<nat, V>, n: map<nat, V>, ids: set<nat>, more: set<nat>)
    requires m - ids == n - ids
    ensures (m - more) - ids == (n - more) - ids
  {
    assert (m - more) - ids == (m - ids) - more;
    assert (n - more) - ids == (n - ids) - more;
  }

  /** Any later effect keeps two states apart by no more than before. */
  lemma AgreeKept(e: Effect, s: State, t: State, other: Effect)
    requires Agree(e, s, t)
    ensures Agree(e, Apply(s, other), Apply(t, other))
  {
    var ids := if e.Perm? then e.resets else {e.id};
    match other
    case Perm(bits, resets, allow) =>
      SubtractTwice(s.firstArgs, t.firstArgs, ids, resets);
      if e.Perm? {
        assert (s.bits + bits) - e.bits == (s.bits - e.bits) + (bits - e.bits);
        assert (t.bits + bits) - e.bits == (t.bits - e.bits) + (bits - e.bits);
        assert (s.bits - bits) - e.bits == (s.bits - e.bits) - bits;
        assert (t.bits - bits) - e.bits == (t.bits - e.bits) - bits;
      }
    case Add(id, arg) =>
      if id in ids {
        AddedInside(s.firstArgs, ids, id, ArgsOf(s, id) + {arg});
        AddedInside(t.firstArgs, ids, id, ArgsOf(t, id) + {arg});
        if e.Add? {
          assert (ArgsOf(s, id) + {arg}) - {e.arg} == (ArgsOf(s, id) - {e.arg}) + ({arg} - {e.arg});
          assert (ArgsOf(t, id) + {arg}) - {e.arg} == (ArgsOf(t, id) - {e.arg}) + ({arg} - {e.arg});
        }
      } else {
        SameArgs(s, t, ids, id);
        SubtractUpdate(s.firstArgs, t.firstArgs, ids, id, ArgsOf(s, id) + {arg});
      }
  }

  lemma AddedInside<V>(m: map<nat, V>, ids: set<nat>, id: nat, v: V)
    requires id in ids
    ensures m[id := v] - ids == m - ids
  {
  }

  /** A covering effect makes them equal. */
  lemma AgreeCovered(e: Effect, s: State, t: State, later: Effect)
    requires Agree(e, s, t) && Covers(later, e)
    ensures Apply(s, later) == Apply(t, later)
  {
    var ids := if e.Perm? then e.resets else {e.id};
    if later.Perm? {
      assert s.firstArgs - later.resets == (s.firstArgs - ids) - later.resets;
      assert t.firstArgs - later.resets == (t.firstArgs - ids) - later.resets;
      if e.Perm? {
        assert s.bits - later.bits == (s.bits - e.bits) - later.bits;
        assert t.bits - later.bits == (t.bits - e.bits) - later.bits;
        assert s.bits + later.bits == (s.bits - e.bits) + later.bits;
        assert t.bits + later.bits == (t.bits - e.bits) + later.bits;
      }
    } else {
      assert ArgsOf(s, e.id) + {e.arg} == (ArgsOf(s, e.id) - {e.arg}) + {e.arg};
      assert ArgsOf(t, e.id) + {e.arg} == (ArgsOf(t, e.id) - {e.arg}) + {e.arg};
      var v := ArgsOf(s, e.id) + {e.arg};
      assert s.firstArgs[e.id := v] == (s.firstArgs - {e.id})[e.id := v];
      assert t.firstArgs[e.id := v] == (t.firstArgs - {e.id})[e.id := v];
    }
  }

  lemma {:induction false} AgreeReplay(e: Effect, s: State, t: State, rules: seq<Rule>)
    requires Agree(e, s, t)
    ensures Agree(e, Replay(s, rules), Replay(t, rules))
    decreases |rules|
  {
    hide Agree, Apply;
    if rules != [] {
      AgreeKept(e, s, t, rules[0].effect);
      AgreeReplay(e, Apply(s, rules[0].effect), Apply(t, rules[0].effect), rules[1..]);
    }
  }

  function KeptRules(rules: seq<Rule>, body: string): (kept: seq<Rule>)
    ensures forall r :: r in kept ==> r in rules && !Removes(body, Token(r))
  {
    if rules == [] then []
    else (if Removes(body, Token(rules[0])) then [] else [rules[0]]) + KeptRules(rules[1..], body)
  }

  /** Dropping the rules that a new rule removes does not change the state
      once the new rule is applied. */
  lemma {:induction false} Absorb(s: State, rules: seq<Rule>, n: Rule)
    requires forall r :: r in rules && Removes(n.body, Token(r)) ==> Covers(n.effect, r.effect)
    ensures Replay(s, KeptRules(rules, n.body) + [n]) == Replay(s, rules + [n])
    decreases |rules|
  {
    hide Agree, Apply, Covers, Removes;
    if rules != [] {
      var r, rest := rules[0], rules[1..];
      var s1 := Apply(s, r.effect);
      assert (rules + [n])[1..] == rest + [n];
      if Removes(n.body, Token(r)) {
        assert KeptRules(rules, n.body) == KeptRules(rest, n.body);
        Absorb(s, rest, n);
        AgreeApplied(r.effect, s);
        AgreeReplay(r.effect, s, s1, rest);
        AgreeCovered(r.effect, Replay(s, rest), Replay(s1, rest), n.effect);
        ReplayLast(s, rest, n);
        ReplayLast(s1, rest, n);
      } else {
        assert (KeptRules(rules, n.body) + [n])[1..] == KeptRules(rest, n.body) + [n];
        Absorb(s1, rest, n);
      }
    }
  }
}
