/** The retained rules of a selector regenerate its permissions, over every
    run of rules (src/acl.c). */
module AclReplay {
  import opened Common
  import opened Ascii
  import opened SdsArgs
  import opened AclText
  import opened AclRules
  import opened AclCommands

  // ------------------------------------------- removed rules are covered

  /** What a rule body names, whatever its sign. */
  datatype Kind = Category(c: nat) | Whole(i: nat) | Part(i: nat, j: nat) | FirstArg(i: nat, arg: string) | Nothing

  function KindOf(t: Table, body: string): (k: Kind)
    ensures k.Whole? || k.Part? || k.FirstArg? ==> k.i < |t.commands|
    ensures k.Part? ==> k.j < |t.commands[k.i].subs|
  {
    if body != "" && body[0] == '@' then
      var c := FindCategory(t.categories, body[1..], 0);
      if c == |t.categories| then Nothing else Category(c)
    else
      match Lookup(t, body)
      case Top(i) => Whole(i)
      case Below(i, j) => Part(i, j)
      case NoCommand =>
        var k := LastBar(body, |body|);
        if k == 0 || k == |body| then Nothing
        else
          var f := Lookup(t, body[..k - 1]);
          if f.Top? then FirstArg(f.i, Lower(body[k..])) else Nothing
  }

  function KindEffect(t: Table, k: Kind, allow: bool): Effect
    requires k != Nothing
    requires k.Whole? || k.Part? || k.FirstArg? ==> k.i < |t.commands|
    requires k.Part? ==> k.j < |t.commands[k.i].subs|
  {
    match k
    case Category(c) => CategoryEffect(t, c, allow)
    case Whole(i) => TopEffect(t.commands[i], allow)
    case Part(i, j) => BelowEffect(t.commands[i].subs[j], allow)
    case FirstArg(i, arg) => Add(t.commands[i].id, arg)
  }

  lemma StoredKind(t: Table, r: Rule)
    requires Stored(t, r)
    ensures KindOf(t, r.body) != Nothing && r.effect == KindEffect(t, KindOf(t, r.body), r.allow)
  {
    hide CategoryEffect, TopEffect, BelowEffect, Lower, FullName, Lookup, LastBar, DecodeCategory, DecodeCommand, DecodePart;
    var op := Token(r);
    assert op[1..] == r.body;
    if |op| > 1 && op[1] == '@' {
      assert op[1] == r.body[0];
      CategoryKind(t, r);
    } else {
      assert r.body != "" ==> r.body[0] == op[1];
      if op[0] == '-' || LastBar(op, |op|) == 0 {
        CommandKind(t, r);
      } else {
        PartKind(t, r);
      }
    }
  }

  lemma CategoryKind(t: Table, r: Rule)
    requires r.body != "" && r.body[0] == '@' && DecodeCategory(t, r.allow, r.body) == Changed(r)
    ensures KindOf(t, r.body) != Nothing && r.effect == KindEffect(t, KindOf(t, r.body), r.allow)
  {
    hide CategoryEffect, Lower;
  }

  lemma CommandKind(t: Table, r: Rule)
    requires (r.body == "" || r.body[0] != '@') && DecodeCommand(t, r.allow, r.body) == Changed(r)
    ensures KindOf(t, r.body) != Nothing && r.effect == KindEffect(t, KindOf(t, r.body), r.allow)
  {
    hide Lookup, Lower, FullName, TopEffect, BelowEffect;
  }

  lemma PartKind(t: Table, r: Rule)
    requires r.allow && (r.body == "" || r.body[0] != '@') && DecodePart(t, r.body) == Changed(r)
    ensures KindOf(t, r.body) != Nothing && r.effect == KindEffect(t, KindOf(t, r.body), r.allow)
  {
    hide Lookup, Lower, LastBar, TopEffect, BelowEffect;
    PartLookup(t, r.body);
  }

  lemma CategoryNoBar(t: Table, body: string)
    requires NamesSplit(t) && body != "" && body[0] == '@' && KindOf(t, body) != Nothing
    ensures NoBar(body)
  {
    var c := FindCategory(t.categories, body[1..], 0);
    LowerChars(t.categories[c], body[1..]);
    forall k | 0 <= k < |body|
      ensures body[k] != '|'
    {
      assert k > 0 ==> body[k] == body[1..][k - 1] && t.categories[c][k - 1] != '|';
    }
  }

  /** The text of a rule has at most one bar; the name before it is the
      command. */
  lemma OneBar(t: Table, body: string, n: string)
    requires NamesSplit(t) && KindOf(t, body) != Nothing
    requires n + "|" <= body
    ensures NoBar(n)
    ensures KindOf(t, body).Part? || KindOf(t, body).FirstArg?
    ensures n != "" && n[0] != '@' && Lookup(t, n) == Top(KindOf(t, body).i)
  {
    assert body[|n|] == '|' && body[..|n|] == n;
    if body[0] == '@' {
      CategoryNoBar(t, body);
    } else if Lookup(t, body) != NoCommand {
      var k := FirstBar(body, 0);
      assert k <= |n|;
      assert forall j :: k < j < |body| ==> body[k + 1..][j - k - 1] == body[j];
      assert k == |n|;
      assert FirstBar(n, 0) == |n|;
      assert Lower(t.commands[FindCommand(t.commands, n, 0)].name) == Lower(n);
    } else {
      var k := LastBar(body, |body|);
      var copy := body[..k - 1];
      assert |n| <= k - 1;
      assert forall j :: 0 <= j < k - 1 ==> copy[j] == body[j];
      assert |n| == k - 1;
      assert copy == n;
    }
  }

  /** A stored rule that the surgery drops is covered by the new rule. */
  lemma RemovedIsCovered(t: Table, r: Rule, n: Rule)
    requires WellFormed(t) && Stored(t, r) && Stored(t, n)
    requires Removes(n.body, Token(r))
    ensures Covers(n.effect, r.effect)
  {
    hide Lookup, Stored, CategoryBits, CategoryResets, Lower;
    StoredKind(t, r);
    StoredKind(t, n);
    assert Token(r)[1..] == r.body;
    if |r.body| > |n.body| {
      assert r.body[..|n.body|] == n.body && r.body[|n.body|] == '|';
      assert n.body + "|" <= r.body;
      OneBar(t, r.body, n.body);
    } else {
      assert r.body == n.body;
    }
  }

  // --------------------------------------------------------------- runs

  datatype Config = Config(state: State, rules: seq<Rule>)

  function Start(future: bool): Config { Config(Base(future), []) }

  /** One rule: +@all and -@all start over, an accepted rule takes effect and
      joins the retained rules, a refused one changes nothing. */
  function Step(t: Table, c: Config, op: string): Config {
    match Decode(t, op)
    case AllCommands => Start(true)
    case NoCommands => Start(false)
    case Changed(r) => Config(Apply(c.state, r.effect), KeptRules(c.rules, r.body) + [r])
    case Failed(_) => c
    case OtherOp => c
  }

  function Run(t: Table, c: Config, ops: seq<string>): Config
    decreases |ops|
  {
    if ops == [] then c else Step(t, Run(t, c, ops[..|ops| - 1]), ops[|ops| - 1])
  }

  ghost predicate AllStored(t: Table, rules: seq<Rule>) {
    forall k :: 0 <= k < |rules| ==> Stored(t, rules[k])
  }

  /** No rule removes an earlier one. */
  ghost predicate Irredundant(rules: seq<Rule>) {
    forall i, j :: 0 <= i < j < |rules| ==> !Removes(rules[j].body, Token(rules[i]))
  }

  ghost predicate Regenerates(t: Table, c: Config) {
    && AllStored(t, c.rules)
    && Irredundant(c.rules)
    && c.state == Replay(Base(FUTURE in c.state.bits), c.rules)
  }

  lemma CategoryBelowFuture(t: Table, c: nat, n: nat)
    requires IdsDistinct(t) && n <= |t.commands|
    ensures FUTURE !in CategoryBits(t.commands, c, n)
  {
  }

  lemma StoredKeepsFuture(t: Table, r: Rule)
    requires WellFormed(t) && Stored(t, r)
    ensures r.effect.Perm? ==> FUTURE !in r.effect.bits
  {
    hide Stored;
    StoredKind(t, r);
    if KindOf(t, r.body).Category? {
      CategoryBelowFuture(t, KindOf(t, r.body).c, |t.commands|);
    }
  }

  lemma {:induction false} KeptIrredundant(t: Table, rules: seq<Rule>, body: string)
    requires AllStored(t, rules) && Irredundant(rules)
    ensures AllStored(t, KeptRules(rules, body)) && Irredundant(KeptRules(rules, body))
    decreases |rules|
  {
    hide Removes, Stored;
    if rules != [] {
      KeptIrredundant(t, rules[1..], body);
      var rest := KeptRules(rules[1..], body);
      forall j | 0 <= j < |rest|
        ensures !Removes(rest[j].body, Token(rules[0]))
      {
        assert rest[j] in rules[1..];
        var k :| 0 <= k < |rules| - 1 && rules[1..][k] == rest[j];
        assert rules[k + 1] == rest[j];
      }
      FirstIrredundant(t, rules[0], rest);
      assert [] + rest == rest;
    }
  }

  lemma FirstIrredundant(t: Table, r: Rule, rest: seq<Rule>)
    requires AllStored(t, rest) && Irredundant(rest) && Stored(t, r)
    requires forall j :: 0 <= j < |rest| ==> !Removes(rest[j].body, Token(r))
    ensures AllStored(t, [r] + rest) && Irredundant([r] + rest)
  {
    hide Removes, Stored;
    var all := [r] + rest;
    assert forall k :: 0 < k < |all| ==> all[k] == rest[k - 1];
  }

  lemma StepRegenerates(t: Table, c: Config, op: string)
    requires WellFormed(t) && Regenerates(t, c)
    ensures Regenerates(t, Step(t, c, op))
  {
    hide Decode, Removes, Stored, Replay, Apply, KeptRules, Covers;
    match Decode(t, op)
    case Changed(r) => {
      AcceptedIsStored(t, op);
      KeptIrredundant(t, c.rules, r.body);
      forall x | x in c.rules && Removes(r.body, Token(x))
        ensures Covers(r.effect, x.effect)
      {
        RemovedIsCovered(t, x, r);
      }
      var base := Base(FUTURE in c.state.bits);
      Absorb(base, c.rules, r);
      ReplayLast(base, c.rules, r);
      StoredKeepsFuture(t, r);
      ApplyKeepsFuture(c.state, r.effect);
    }
    case AllCommands => ReplayNothing(Base(true));
    case NoCommands => ReplayNothing(Base(false));
    case Failed(_) =>
    case OtherOp =>
  }

  lemma ReplayNothing(s: State)
    ensures Replay(s, []) == s
  {
  }

  lemma ApplyKeepsFuture(s: State, e: Effect)
    requires e.Perm? ==> FUTURE !in e.bits
    ensures FUTURE in Apply(s, e).bits <==> FUTURE in s.bits
  {
  }

  /** Over every run, the retained rules regenerate the permissions. */
  lemma {:induction false} RunRegenerates(t: Table, future: bool, ops: seq<string>)
    requires WellFormed(t)
    ensures Regenerates(t, Run(t, Start(future), ops))
    decreases |ops|
  {
    hide Regenerates, Step, WellFormed;
    if ops == [] {
      StartRegenerates(t, future);
    } else {
      RunRegenerates(t, future, ops[..|ops| - 1]);
      StepRegenerates(t, Run(t, Start(future), ops[..|ops| - 1]), ops[|ops| - 1]);
    }
  }

  lemma StartRegenerates(t: Table, future: bool)
    ensures Regenerates(t, Start(future))
  {
  }

  // ------------------------------------------------------- re-applying

  lemma {:induction false} KeptAll(rules: seq<Rule>, body: string)
    requires forall i :: 0 <= i < |rules| ==> !Removes(body, Token(rules[i]))
    ensures KeptRules(rules, body) == rules
    decreases |rules|
  {
    hide Removes;
    if rules != [] {
      KeptAll(rules[1..], body);
    }
  }

  lemma {:induction false} ReapplyPrefix(t: Table, c: Config, k: nat)
    requires Regenerates(t, c) && k <= |c.rules|
    ensures var base := FUTURE in c.state.bits;
      Run(t, Start(base), Tokens(c.rules)[..k]) == Config(Replay(Base(base), c.rules[..k]), c.rules[..k])
  {
    hide Decode, Removes, Apply, KeptRules, Replay, Regenerates, Step, Tokens;
    var base := FUTURE in c.state.bits;
    TokensLength(c.rules);
    if k == 0 {
      ReplayNothing(Base(base));
      assert c.rules[..0] == [] && Tokens(c.rules)[..0] == [];
    } else {
      var tokens := Tokens(c.rules)[..k];
      ReapplyPrefix(t, c, k - 1);
      assert tokens[..k - 1] == Tokens(c.rules)[..k - 1];
      ReapplyNext(t, c, k - 1);
    }
  }

  /** One more rule of the retained ones is applied and retained. */
  lemma ReapplyNext(t: Table, c: Config, k: nat)
    requires Regenerates(t, c) && k < |c.rules|
    ensures var base := Base(FUTURE in c.state.bits);
      Step(t, Config(Replay(base, c.rules[..k]), c.rules[..k]), Tokens(c.rules)[k])
      == Config(Replay(base, c.rules[..k + 1]), c.rules[..k + 1])
  {
    hide Decode, Removes, Apply, KeptRules, Replay;
    var r := c.rules[k];
    assert Tokens(c.rules)[k] == Token(r);
    assert Stored(t, r);
    KeptAll(c.rules[..k], r.body);
    assert c.rules[..k] + [r] == c.rules[..k + 1];
    ReplayLast(Base(FUTURE in c.state.bits), c.rules[..k], r);
  }

  lemma TokensLength(rules: seq<Rule>)
    ensures |Tokens(rules)| == |rules|
  {
  }

  ghost predicate TextSplits(c: Config) { Words(Tokens(c.rules)) }

  /** The token of an accepted rule is a word exactly when the rule is free of
      blanks, quotes and NUL bytes. */
  lemma ChangedToken(t: Table, op: string)
    requires Decode(t, op).Changed?
    ensures Word(Token(Decode(t, op).rule)) <==> Verbatim(op)
    ensures !Space(op[0])
  {
    hide Decode, Verbatim, Lower;
    TokenIsRule(t, op);
    ChangedSign(t, op);
    LowerVerbatim(op);
  }

  lemma ChangedSign(t: Table, op: string)
    requires Decode(t, op).Changed?
    ensures op != "" && (op[0] == '+' || op[0] == '-')
  {
    hide DecodeCategory, DecodeCommand, DecodePart, OtherOperation, Lower;
  }

  lemma LowerVerbatim(op: string)
    ensures Verbatim(Lower(op)) <==> Verbatim(op)
    ensures |Lower(op)| == |op| && (op != "" ==> (Space(op[0]) <==> Space(Lower(op)[0])))
  {
    var l := Lower(op);
    assert forall k :: 0 <= k < |op| ==> l[k] == LowerChar(op[k]);
  }

  /** After every run, the text of the retained rules splits back into them
      exactly when each is free of blanks, quotes and NUL bytes. */
  lemma TextSplitsIff(t: Table, future: bool, ops: seq<string>)
    ensures var c := Run(t, Start(future), ops);
      SplitArgs(Join(Tokens(c.rules)), 0) == Some(Tokens(c.rules)) <==> TextSplits(c)
  {
    hide SplitArgs, Join, Run, Word;
    SplitJoinIff(Tokens(Run(t, Start(future), ops).rules));
  }

  /** Such rules are accepted: the first argument holds a blank, and re-reading
      the text meets a word that is no rule. */
  lemma BlankRuleDoesNotSplit()
    ensures var t, op := Table([Command("get", 1, {}, [])], []), "+get|a b";
      var c := Step(t, Start(false), op);
      && WellFormed(t) && Decode(t, op).Changed? && Tokens(c.rules) == [op]
      && SplitArgs(Join(Tokens(c.rules)), 0) == Some(["+get|a", "b"]) && Decode(t, "b") == Failed(EINVAL)
  {
    hide Decode, SplitArgs, Join, Lower;
    var t, op := Table([Command("get", 1, {}, [])], []), "+get|a b";
    BlankRuleAccepted(t, op);
    TokenIsRule(t, op);
    LowerAlready(op);
    BlankText(op);
    UnknownWord(t);
    var c := Step(t, Start(false), op);
    assert Tokens(c.rules) == [op];
    JoinOne(op);
  }

  lemma LowerAlready(op: string)
    requires op == "+get|a b"
    ensures Lower(op) == op
  {
  }

  lemma BlankText(op: string)
    requires op == "+get|a b"
    ensures SplitArgs(op, 0) == Some(["+get|a", "b"])
  {
    var words := ["+get|a", "b"];
    assert words[..1] == ["+get|a"];
    assert Join(words) == op;
    SplitJoin(words);
  }

  lemma UnknownWord(t: Table)
    ensures Decode(t, "b") == Failed(EINVAL)
  {
    assert Lower("b") == "b";
  }

  lemma JoinOne(w: string)
    ensures Join([w]) == w
  {
  }

  lemma BlankRuleAccepted(t: Table, op: string)
    requires t == Table([Command("get", 1, {}, [])], []) && op == "+get|a b"
    ensures Decode(t, op).Changed?
  {
    var body := op[1..];
    assert body == "get|a b";
    assert Lower(op) == op;
    assert LastBar(body, |body|) == 4 by { BarIsLast(body, 3); }
    assert LastBar(op, |op|) != 0;
    assert body[..3] == "get";
    assert FirstBar("get", 0) == 3;
    assert Lookup(t, "get") == Top(0);
  }

  lemma BarIsLast(s: string, k: nat)
    requires k < |s| && s[k] == '|' && forall j :: k < j < |s| ==> s[j] != '|'
    ensures LastBar(s, |s|) == k + 1
  {
    var l := LastBar(s, |s|);
  }

  lemma StepTextSplits(t: Table, c: Config, op: string)
    requires TextSplits(c) && Verbatim(op)
    ensures TextSplits(Step(t, c, op))
  {
    hide Decode, Word, Removes;
    if Decode(t, op).Changed? {
      var r := Decode(t, op).rule;
      ChangedToken(t, op);
      var kept := KeptRules(c.rules, r.body);
      var next := Tokens(kept + [r]);
      forall k | 0 <= k < |next|
        ensures Word(next[k])
      {
        if k < |kept| {
          assert kept[k] in c.rules;
          var j :| 0 <= j < |c.rules| && c.rules[j] == kept[k];
          assert next[k] == Tokens(c.rules)[j];
        }
      }
    }
  }

  /** Over every run of plain rules: the text splits into the retained rules,
      and applying them in order to +@all or -@all, chosen by the reserved
      bit, gives the same permissions and the same rules, hence the same
      text. */
  lemma {:induction false} TextRegenerates(t: Table, future: bool, ops: seq<string>)
    requires WellFormed(t) && forall k :: 0 <= k < |ops| ==> Verbatim(ops[k])
    ensures var c := Run(t, Start(future), ops);
      && SplitArgs(Join(Tokens(c.rules)), 0) == Some(Tokens(c.rules))
      && Run(t, Start(FUTURE in c.state.bits), Tokens(c.rules)) == c
  {
    hide Decode, Join, Regenerates, TextSplits, SplitArgs;
    var c := Run(t, Start(future), ops);
    RunTextSplits(t, future, ops);
    SplitTokens(c);
    RunRegenerates(t, future, ops);
    Reapply(t, c);
  }

  lemma SplitTokens(c: Config)
    requires TextSplits(c)
    ensures SplitArgs(Join(Tokens(c.rules)), 0) == Some(Tokens(c.rules))
  {
    SplitJoin(Tokens(c.rules));
  }

  lemma Reapply(t: Table, c: Config)
    requires Regenerates(t, c)
    ensures Run(t, Start(FUTURE in c.state.bits), Tokens(c.rules)) == c
  {
    ReapplyPrefix(t, c, |c.rules|);
    assert c.rules[..|c.rules|] == c.rules;
    assert Tokens(c.rules)[..|c.rules|] == Tokens(c.rules);
  }

  lemma {:induction false} RunTextSplits(t: Table, future: bool, ops: seq<string>)
    requires forall k :: 0 <= k < |ops| ==> Verbatim(ops[k])
    ensures TextSplits(Run(t, Start(future), ops))
    decreases |ops|
  {
    hide Step, Word, Verbatim;
    if ops != [] {
      RunTextSplits(t, future, ops[..|ops| - 1]);
      StepTextSplits(t, Run(t, Start(future), ops[..|ops| - 1]), ops[|ops| - 1]);
    }
  }
}
