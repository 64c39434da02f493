/** A selector updated in place, and the places where the server re-reads its
    rule text (src/acl.c). */
module AclSelector {
  import opened Common
  import opened Ascii
  import opened SdsArgs
  import opened AclText
  import opened AclRules
  import opened AclCommands
  import opened AclReplay

  function BitsOf(s: seq<bool>): set<nat> { set i: nat | i < |s| && s[i] }

  function LowerSet(args: seq<string>): set<string> {
    if args == [] then {} else LowerSet(args[..|args| - 1]) + {Lower(args[|args| - 1])}
  }

  function LowerArgs(m: map<nat, seq<string>>): map<nat, set<string>> { map id | id in m :: LowerSet(m[id]) }

  /** Only whole commands have first arguments. */
  ghost predicate ArgsAtCommands(t: Table, m: map<nat, seq<string>>) {
    forall id :: id in m ==> exists i :: 0 <= i < |t.commands| && t.commands[i].id == id
  }

  lemma {:induction false} LowerSetHas(args: seq<string>, a: string)
    ensures Lower(a) in LowerSet(args) <==> exists k :: 0 <= k < |args| && Lower(args[k]) == Lower(a)
    decreases |args|
  {
    if args != [] {
      LowerSetHas(args[..|args| - 1], a);
    }
  }

  lemma LowerArgsUpdate(m: map<nat, seq<string>>, id: nat, args: seq<string>)
    ensures LowerArgs(m[id := args]) == LowerArgs(m)[id := LowerSet(args)]
  {
  }

  lemma LowerArgsRemove(m: map<nat, seq<string>>, ids: set<nat>)
    ensures LowerArgs(m - ids) == LowerArgs(m) - ids
  {
  }

  lemma {:induction false} TokensKept(rules: seq<Rule>, body: string)
    ensures Kept(Tokens(rules), body) == Tokens(KeptRules(rules, body))
    decreases |rules|
  {
    hide Removes, Tokens, Token;
    if rules == [] {
      TokensNone();
    } else {
      TokensKept(rules[1..], body);
      TokensFirst(rules[0], rules[1..]);
      assert [rules[0]] + rules[1..] == rules;
      var rest := KeptRules(rules[1..], body);
      TokensFirst(rules[0], rest);
      assert [] + rest == rest && [] + Tokens(rest) == Tokens(rest);
    }
  }

  lemma TokensNone()
    ensures Tokens([]) == []
  {
  }

  lemma TokensFirst(r: Rule, rules: seq<Rule>)
    ensures Tokens([r] + rules) == [Token(r)] + Tokens(rules)
    ensures Tokens([r] + rules)[1..] == Tokens(rules)
  {
  }

  lemma ApplyTwice(s: State, b: set<nat>, r: set<nat>, b': set<nat>, r': set<nat>, allow: bool)
    ensures Apply(Apply(s, Perm(b, r, allow)), Perm(b', r', allow)) == Apply(s, Perm(b + b', r + r', allow))
    ensures b' == {} ==> forall any :: Apply(Apply(s, Perm(b, r, allow)), Perm(b', r', any)) == Apply(s, Perm(b, r + r', allow))
  {
  }

  lemma AppendRule(rules: seq<Rule>, r: Rule)
    requires Words(Tokens(rules)) && Word(Token(r))
    ensures var kept := Join(Tokens(KeptRules(rules, r.body)));
      && Join(Tokens(KeptRules(rules, r.body) + [r])) == (if kept != "" then kept + " " else kept) + Token(r)
      && Words(Tokens(KeptRules(rules, r.body) + [r]))
  {
    hide Word, Join, Words, KeptRules, Tokens;
    KeptWords(rules, r.body);
    TokensLast(KeptRules(rules, r.body), r);
    JoinLast(Tokens(KeptRules(rules, r.body)), Token(r));
  }

  lemma KeptWords(rules: seq<Rule>, body: string)
    requires Words(Tokens(rules))
    ensures Words(Tokens(KeptRules(rules, body)))
  {
    hide Word, Removes;
    var kept := KeptRules(rules, body);
    forall k | 0 <= k < |kept|
      ensures Word(Tokens(kept)[k])
    {
      assert kept[k] in rules;
      var j :| 0 <= j < |rules| && rules[j] == kept[k];
      assert Tokens(rules)[j] == Tokens(kept)[k];
    }
  }

  lemma TokensLast(rules: seq<Rule>, r: Rule)
    ensures Tokens(rules + [r]) == Tokens(rules) + [Token(r)]
  {
  }

  lemma JoinLast(words: seq<string>, w: string)
    requires Words(words) && Word(w)
    ensures Join(words + [w]) == (if Join(words) != "" then Join(words) + " " else Join(words)) + w
    ensures Words(words + [w])
  {
    hide Word;
    assert (words + [w])[..|words|] == words;
    PiecesOfWords(words);
    PiecesNonEmpty(words);
    if words != [] {
      assert Word(words[0]);
      EmptyIsNoWord();
    }
  }

  lemma EmptyIsNoWord()
    ensures !Word("")
  {
  }

  lemma {:induction false} JoinBare(words: seq<string>)
    requires forall k :: 0 <= k < |words| ==> '\0' !in words[k]
    ensures '\0' !in Join(words)
    decreases |words|
  {
    if |words| > 1 {
      JoinBare(words[..|words| - 1]);
    }
  }

  /** ACLUpdateCommandRules on any text. */
  function Updated(text: string, r: Rule): string {
    var kept := Join(Kept(PiecesOf(text), r.body));
    (if kept != "" then kept + " " else kept) + Token(r)
  }

  lemma UpdatedBare(text: string, r: Rule)
    requires '\0' !in text && '\0' !in Token(r)
    ensures '\0' !in Updated(text, r)
  {
    hide Join, Kept, PiecesOf, Removes;
    var ps := PiecesOf(text);
    PiecesJoin(text);
    forall k | 0 <= k < |Kept(ps, r.body)|
      ensures '\0' !in Kept(ps, r.body)[k]
    {
      KeptExactly(ps, r.body, Kept(ps, r.body)[k]);
    }
    JoinBare(Kept(ps, r.body));
  }

  /** On the text of plain rules it drops and appends rules. */
  lemma UpdatedWords(rules: seq<Rule>, r: Rule)
    requires Words(Tokens(rules)) && Word(Token(r))
    ensures Updated(Join(Tokens(rules)), r) == Join(Tokens(KeptRules(rules, r.body) + [r]))
    ensures Words(Tokens(KeptRules(rules, r.body) + [r]))
  {
    hide Join, Kept, PiecesOf, Removes, Word, Words, KeptRules, Tokens;
    PiecesOfWords(Tokens(rules));
    TokensKept(rules, r.body);
    AppendRule(rules, r);
  }

  function TextStep(text: string, o: Outcome): string {
    match o
    case AllCommands => ""
    case NoCommands => ""
    case Changed(r) => Updated(text, r)
    case _ => text
  }

  /** Whether all rules accepted since the last reset are plain words. */
  ghost predicate PlainStep(plain: bool, o: Outcome) {
    match o
    case AllCommands => true
    case NoCommands => true
    case Changed(r) => plain && Word(Token(r))
    case _ => plain
  }

  /** Every word of a text is read as an operation without error. */
  ghost predicate Rereads(t: Table, argv: Option<seq<string>>) {
    argv.Some? && forall k :: 0 <= k < |argv.value| ==> Reported(Decode(t, CString(argv.value[k]))) == None
  }

  /** Reading the text again gives the same bits. */
  ghost predicate Predicts(t: Table, text: string, p: State) {
    var argv := SplitArgs(text, 0);
    Rereads(t, argv) && Run(t, Start(FUTURE in p.bits), CStrings(argv.value)).state.bits == p.bits
  }

  function CStrings(words: seq<string>): seq<string> { seq(|words|, i requires 0 <= i < |words| => CString(words[i])) }

  lemma ApplyNothing(s: State, allow: bool)
    ensures Apply(s, Perm({}, {}, allow)) == s
  {
  }

  lemma CommandIds(t: Table, c: Command)
    requires WellFormed(t) && c in t.commands
    ensures c.id < FUTURE
    ensures forall j :: 0 <= j < |c.subs| ==> c.subs[j].id < FUTURE
    ensures forall j, k :: 0 <= j < |c.subs| && 0 <= k < |t.commands| ==> c.subs[j].id != t.commands[k].id
  {
    var i :| 0 <= i < |t.commands| && t.commands[i] == c;
  }

  function Reported(o: Outcome): Option<Errno> { if o.Failed? then Some(o.error) else None }

  class Selector {
    const table: Table
    /** allowed_commands */
    const allowed: array<bool>
    /** allowed_firstargs */
    var firstArgs: map<nat, seq<string>>
    /** SELECTOR_FLAG_ALLCOMMANDS */
    var allCommands: bool
    /** command_rules */
    var text: string
    /** The rules accepted and not made superfluous. */
    ghost var rules: seq<Rule>
    /** Every rule accepted since the last +@all or -@all is free of blanks and
        quotes. */
    ghost var plain: bool

    ghost predicate Shape()
      reads this, allowed
    {
      && allowed.Length == BITS
      && WellFormed(table)
      && ArgsAtCommands(table, firstArgs)
      && (allCommands ==> forall i :: 0 <= i < BITS ==> allowed[i])
    }

    ghost predicate HoldsText()
      reads this
    {
      '\0' !in text && (plain ==> text == Join(Tokens(rules)) && Words(Tokens(rules)))
    }

    ghost function Perms(): State
      reads this, allowed
    {
      State(BitsOf(allowed[..]), LowerArgs(firstArgs))
    }

    ghost function Value(): Config
      reads this, allowed
    {
      Config(Perms(), rules)
    }

    ghost predicate Valid()
      reads this, allowed
    {
      Shape() && HoldsText() && Regenerates(table, Value())
    }

    /** ACLCreateSelector: no command allowed. */
    constructor (t: Table)
      requires WellFormed(t)
      ensures Valid() && fresh(allowed) && table == t
      ensures Value() == Start(false) && text == "" && plain
    {
      table := t;
      allowed := new bool[BITS](i => false);
      firstArgs := map[];
      allCommands := false;
      text := "";
      rules := [];
      plain := true;
      new;
      assert BitsOf(allowed[..]) == {};
    }

    /** +@all and -@all */
    method Reset(future: bool)
      requires Shape()
      modifies this, allowed
      ensures Valid() && Value() == Start(future) && text == "" && plain
      ensures firstArgs == map[] && forall k :: 0 <= k < BITS ==> allowed[k] == future
    {
      var i := 0;
      while i < BITS
        invariant 0 <= i <= BITS
        invariant forall j :: 0 <= j < i ==> allowed[j] == future
      {
        allowed[i] := future;
        i := i + 1;
      }
      allCommands := future;
      text := "";
      rules := [];
      plain := true;
      firstArgs := map[];
      assert BitsOf(allowed[..]) == Base(future).bits;
    }

    lemma PermBits()
      ensures Perms().bits == BitsOf(allowed[..])
    {
    }

    /** ACLSetSelectorCommandBit */
    method SetBit(id: nat, value: bool)
      requires Shape()
      modifies `allCommands, allowed
      ensures Shape() && Perms() == if id < BITS then Apply(old(Perms()), Perm({id}, {}, value)) else old(Perms())
      ensures allowed[..] == if id < BITS then old(allowed[..])[id := value] else old(allowed[..])
    {
      if id >= BITS {
        return;
      }
      ghost var before := allowed[..];
      allowed[id] := value;
      if !value {
        allCommands := false;
      }
      assert allowed[..] == before[id := value];
      assert BitsOf(allowed[..]) == if value then BitsOf(before) + {id} else BitsOf(before) - {id};
    }

    /** ACLResetFirstArgsForCommand */
    method ResetFirstArgs(id: nat)
      requires Shape()
      modifies `firstArgs
      ensures Shape() && Perms() == Apply(old(Perms()), Perm({}, {id}, true)) && firstArgs == old(firstArgs) - {id}
    {
      LowerArgsRemove(firstArgs, {id});
      firstArgs := firstArgs - {id};
    }

    /** ACLChangeSelectorPerm on a whole command */
    method ChangeCommand(c: Command, allow: bool)
      requires Shape() && c in table.commands
      modifies `allCommands, `firstArgs, allowed
      ensures Shape() && Perms() == Apply(old(Perms()), TopEffect(c, allow)) && firstArgs == old(firstArgs) - {c.id}
      ensures forall k :: 0 <= k < BITS ==> allowed[k] == if BitOfCommand(c, k) then allow else old(allowed[k])
    {
      hide Apply, Perms, ArgsAtCommands, WellFormed, BitOfCommand;
      PermBits();
      CommandIds(table, c);
      SetBit(c.id, allow);
      ResetFirstArgs(c.id);
      ApplyTwice(old(Perms()), {c.id}, {}, {}, {c.id}, allow);
      assert {} + {c.id} == {c.id} && {c.id} + SubIds(c.subs, 0) == {c.id};
      var j := 0;
      while j < |c.subs|
        invariant 0 <= j <= |c.subs|
        invariant Shape() && Perms() == Apply(old(Perms()), Perm({c.id} + SubIds(c.subs, j), {c.id}, allow))
        invariant firstArgs == old(firstArgs) - {c.id}
      {
        SetBit(c.subs[j].id, allow);
        ApplyTwice(old(Perms()), {c.id} + SubIds(c.subs, j), {c.id}, {c.subs[j].id}, {}, allow);
        assert {c.id} + SubIds(c.subs, j) + {c.subs[j].id} == {c.id} + SubIds(c.subs, j + 1);
        j := j + 1;
      }
      PermBits();
      CommandDecides(old(Perms()), old(allowed[..]), Perms(), allowed[..], c, allow);
    }

    /** ACLChangeSelectorPerm on a subcommand */
    method ChangeSubcommand(c: Command, s: Subcommand, allow: bool)
      requires Shape() && c in table.commands && s in c.subs
      modifies `allCommands, `firstArgs, allowed
      ensures Shape() && Perms() == Apply(old(Perms()), BelowEffect(s, allow)) && firstArgs == old(firstArgs)
      ensures allowed[..] == if s.id < BITS then old(allowed[..])[s.id := allow] else old(allowed[..])
    {
      hide Apply, Perms;
      CommandIds(table, c);
      SetBit(s.id, allow);
      // A subcommand has no first arguments to reset.
      firstArgs := firstArgs - {s.id};
      assert firstArgs == old(firstArgs);
    }

    /** The subcommands of one command in ACLSetSelectorCommandBitsForCategory */
    method ChangeCategorySubs(c: Command, category: nat, allow: bool)
      requires Shape() && c in table.commands
      modifies `allCommands, `firstArgs, allowed
      ensures Shape() && Perms() == Apply(old(Perms()), Perm(CategorySubs(c.subs, category, |c.subs|), {}, allow))
    {
      hide Apply, Perms, ArgsAtCommands, WellFormed;
      ApplyNothing(Perms(), allow);
      var j := 0;
      while j < |c.subs|
        invariant 0 <= j <= |c.subs|
        invariant Shape() && Perms() == Apply(old(Perms()), Perm(CategorySubs(c.subs, category, j), {}, allow))
      {
        if category in c.subs[j].categories {
          ChangeSubcommand(c, c.subs[j], allow);
          ApplyTwice(old(Perms()), CategorySubs(c.subs, category, j), {}, {c.subs[j].id}, {}, allow);
        }
        ghost var none: set<nat> := {};
        assert none + none == none;
        j := j + 1;
        assert CategorySubs(c.subs, category, j) ==
          if category in c.subs[j - 1].categories then CategorySubs(c.subs, category, j - 1) + {c.subs[j - 1].id}
          else CategorySubs(c.subs, category, j - 1);
      }
    }

    /** ACLSetSelectorCommandBitsForCategory */
    method ChangeCategory(category: nat, allow: bool)
      requires Shape()
      modifies `allCommands, `firstArgs, allowed
      ensures Shape() && Perms() == Apply(old(Perms()), CategoryEffect(table, category, allow))
      ensures forall k :: 0 <= k < BITS ==>
        allowed[k] == if exists i :: 0 <= i < |table.commands| && BitOfCategory(table.commands[i], category, k) then allow else old(allowed[k])
    {
      hide Apply, Perms, ArgsAtCommands, WellFormed, CategorySubs, TopBits, BitOfCategory;
      PermBits();
      ApplyNothing(Perms(), allow);
      var i := 0;
      while i < |table.commands|
        invariant 0 <= i <= |table.commands|
        invariant Shape() && Perms() == Apply(old(Perms()),
          Perm(CategoryBits(table.commands, category, i), CategoryResets(table.commands, category, i), allow))
      {
        var c := table.commands[i];
        ghost var bits, resets := CategoryBits(table.commands, category, i), CategoryResets(table.commands, category, i);
        if category in c.categories {
          ChangeCommand(c, allow);
          ApplyTwice(old(Perms()), bits, resets, TopBits(c), {c.id}, allow);
          bits, resets := bits + TopBits(c), resets + {c.id};
        }
        ChangeCategorySubs(c, category, allow);
        ApplyTwice(old(Perms()), bits, resets, CategorySubs(c.subs, category, |c.subs|), {}, allow);
        i := i + 1;
        assert bits + CategorySubs(c.subs, category, |c.subs|) == CategoryBits(table.commands, category, i);
        assert resets + {} == CategoryResets(table.commands, category, i);
      }
      PermBits();
      PermsDecide(old(Perms()), old(allowed[..]), Perms(), allowed[..], CategoryEffect(table, category, allow));
      forall k | 0 <= k < BITS
        ensures k in CategoryBits(table.commands, category, |table.commands|) <==>
          exists i :: 0 <= i < |table.commands| && BitOfCategory(table.commands[i], category, k)
      {
        CategoryBitsMeans(table.commands, category, |table.commands|, k);
      }
    }

    /** ACLAddAllowedFirstArg */
    method AddFirstArg(id: nat, arg: string)
      requires Shape() && exists i :: 0 <= i < |table.commands| && table.commands[i].id == id
      modifies `firstArgs
      ensures Shape() && Perms() == Apply(old(Perms()), Add(id, Lower(arg)))
      ensures id in firstArgs && exists k :: 0 <= k < |firstArgs[id]| && Lower(firstArgs[id][k]) == Lower(arg)
      ensures firstArgs == old(firstArgs)[id := firstArgs[id]] && (id in old(firstArgs) ==> old(firstArgs)[id] <= firstArgs[id])
    {
      hide WellFormed, Lower, BitsOf;
      var items := if id in firstArgs then firstArgs[id] else [];
      LowerSetHas(items, arg);
      var k := 0;
      while k < |items|
        invariant 0 <= k <= |items|
        invariant forall j :: 0 <= j < k ==> Lower(items[j]) != Lower(arg)
      {
        if Lower(items[k]) == Lower(arg) {
          assert firstArgs == firstArgs[id := items];
          assert LowerSet(items) + {Lower(arg)} == LowerSet(items);
          LowerArgsUpdate(firstArgs, id, items);
          return;
        }
        k := k + 1;
      }
      assert (items + [arg])[..|items|] == items;
      LowerArgsUpdate(firstArgs, id, items + [arg]);
      firstArgs := firstArgs[id := items + [arg]];
      assert Lower(firstArgs[id][|items|]) == Lower(arg);
    }

    /** ACLUpdateCommandRules */
    method UpdateCommandRules(name: string, allow: bool, ghost r: Rule)
      requires HoldsText() && r.body == Lower(name) && r.allow == allow && '\0' !in Token(r)
      modifies `text, `rules, `plain
      ensures HoldsText() && rules == KeptRules(old(rules), r.body) + [r]
      ensures text == Updated(old(text), r) && plain == (old(plain) && Word(Token(r)))
    {
      hide Join, Words, Word, Lower, KeptRules, Kept, PiecesOf, Tokens;
      var newRule := Lower(name);
      var t := text;
      var buf := new char[|t| + 1](i => if 0 <= i < |t| then t[i] else '\0');
      assert buf[..|t|] == t;
      var n := RemoveCommandRule(buf, |t|, newRule);
      var kept := buf[..n];
      UpdatedBare(text, r);
      if plain && Word(Token(r)) {
        UpdatedWords(rules, r);
      }
      text := (if kept != "" then kept + " " else kept) + ([if allow then '+' else '-'] + newRule);
      rules := KeptRules(rules, r.body) + [r];
      plain := plain && Word(Token(r));
    }

    method ChangeFound(f: Found, allow: bool)
      requires Shape() && (f.Top? || f.Below?) && f.i < |table.commands|
      requires f.Below? ==> f.j < |table.commands[f.i].subs|
      modifies `allCommands, `firstArgs, allowed
      ensures Shape() && Perms() == Apply(old(Perms()), FoundEffect(table, f, allow))
    {
      var c := table.commands[f.i];
      if f.Top? {
        ChangeCommand(c, allow);
      } else {
        ChangeSubcommand(c, c.subs[f.j], allow);
      }
    }

    /** Accepting a rule: its effect, then its text. */
    ghost predicate Accepting(op: string, before: Config)
      reads this, allowed
    {
      && Shape() && HoldsText() && Regenerates(table, before) && '\0' !in op
      && Decode(table, op).Changed?
      && Value() == Config(Apply(before.state, Decode(table, op).rule.effect), before.rules)
    }

    method Retain(name: string, allow: bool, op: string, ghost before: Config)
      requires Accepting(op, before)
      requires Lower(name) == Decode(table, op).rule.body && allow == Decode(table, op).rule.allow
      modifies `text, `rules, `plain
      ensures Valid() && Value() == Step(table, before, op)
      ensures text == TextStep(old(text), Decode(table, op)) && plain == PlainStep(old(plain), Decode(table, op))
    {
      hide Decode, Apply, Word, Lower, KeptRules, Join, Regenerates, WellFormed, ArgsAtCommands, BitsOf, LowerArgs, Updated;
      TokenIsRule(table, op);
      LowerBare(op);
      UpdateCommandRules(name, allow, Decode(table, op).rule);
      StepRegenerates(table, before, op);
    }

    /** The '+' branch for a rule with a bar. */
    method AllowPart(op: string) returns (error: Option<Errno>)
      requires Valid() && '\0' !in op && |op| > 0 && op[0] == '+' && Decode(table, op) == DecodePart(table, op[1..])
      modifies this, allowed
      ensures Valid() && Value() == Step(table, old(Value()), op)
      ensures text == TextStep(old(text), Decode(table, op)) && plain == PlainStep(old(plain), Decode(table, op))
      ensures error == Reported(Decode(table, op))
    {
      hide Apply, Word, Lower, KeptRules, Join, Regenerates, WellFormed, ArgsAtCommands, BitsOf, LowerArgs, Lookup,
           Decode, FoundEffect, Updated;
      var body := op[1..];
      var k := LastBar(body, |body|);
      if k == 0 {
        return Some(ENOENT);
      }
      var copy, sub := body[..k - 1], body[k..];
      var f := Lookup(table, copy);
      if f.NoCommand? {
        return Some(ENOENT);
      } else if f.Below? {
        return Some(ECHILD);
      } else if sub == "" {
        return Some(EINVAL);
      }
      if table.commands[f.i].subs != [] {
        f := Lookup(table, body);
        if f.NoCommand? {
          return Some(ENOENT);
        }
        ChangeFound(f, true);
      } else {
        AddFirstArg(table.commands[f.i].id, sub);
      }
      Retain(body, true, op, old(Value()));
      return None;
    }

    /** The branches for a single command and for '-'. */
    method ChangeNamed(op: string) returns (error: Option<Errno>)
      requires Valid() && '\0' !in op && |op| > 0 && Decode(table, op) == DecodeCommand(table, op[0] == '+', op[1..])
      modifies this, allowed
      ensures Valid() && Value() == Step(table, old(Value()), op)
      ensures text == TextStep(old(text), Decode(table, op)) && plain == PlainStep(old(plain), Decode(table, op))
      ensures error == Reported(Decode(table, op))
    {
      hide Apply, Word, Lower, KeptRules, Join, Regenerates, WellFormed, ArgsAtCommands, BitsOf, LowerArgs, Lookup,
           Decode, FoundEffect, Updated;
      var f := Lookup(table, op[1..]);
      if f.NoCommand? {
        return Some(ENOENT);
      }
      ChangeFound(f, op[0] == '+');
      Retain(FullName(table, f), op[0] == '+', op, old(Value()));
      return None;
    }

    /** ACLSetSelectorCategory */
    method SetCategory(op: string) returns (error: Option<Errno>)
      requires Valid() && '\0' !in op && |op| > 1 && Decode(table, op) == DecodeCategory(table, op[0] == '+', op[1..])
      modifies this, allowed
      ensures Valid() && Value() == Step(table, old(Value()), op)
      ensures text == TextStep(old(text), Decode(table, op)) && plain == PlainStep(old(plain), Decode(table, op))
      ensures error == Reported(Decode(table, op))
    {
      hide Apply, Word, Lower, KeptRules, Join, Regenerates, WellFormed, ArgsAtCommands, BitsOf, LowerArgs,
           Decode, CategoryEffect, Updated;
      var c := FindCategory(table.categories, op[1..][1..], 0);
      if c == |table.categories| {
        return Some(ENOENT);
      }
      // The effect and the text are independent; the source writes the text first.
      ChangeCategory(c, op[0] == '+');
      Retain(op[1..], op[0] == '+', op, old(Value()));
      return None;
    }

    /** ACLSetSelector on command rules; `arg` is read as a C string. */
    method SetSelector(arg: string) returns (error: Option<Errno>)
      requires Valid()
      modifies this, allowed
      ensures var o := Decode(table, CString(arg));
        && Valid() && Value() == Step(table, old(Value()), CString(arg))
        && text == TextStep(old(text), o) && plain == PlainStep(old(plain), o) && error == Reported(o)
      ensures Means(table, CString(arg), old(allowed[..]), allowed[..], firstArgs, error)
    {
      hide Lower, Regenerates, WellFormed, ArgsAtCommands, BitsOf, LowerArgs, DecodeCategory, DecodeCommand, DecodePart,
           Join, KeptRules, Apply, Updated, OtherOperation, CString, Means;
      var op := CString(arg);
      ghost var was, before := Value(), allowed[..];
      if OtherOperation(op) {
        error := None;
      } else if Lower(op) == "allcommands" || Lower(op) == "+@all" {
        Reset(true);
        error := None;
      } else if Lower(op) == "nocommands" || Lower(op) == "-@all" {
        Reset(false);
        error := None;
      } else if op == "" || (op[0] != '+' && op[0] != '-') {
        error := Some(EINVAL);
      } else if |op| > 1 && op[1] == '@' {
        error := SetCategory(op);
      } else if op[0] == '-' || LastBar(op, |op|) == 0 {
        error := ChangeNamed(op);
      } else {
        error := AllowPart(op);
      }
      StepMeans(table, op, was, before, Value(), allowed[..], firstArgs, error);
    }

    /** The loop that both re-readers of the text run: from +@all or -@all,
        every word of a text. No assertion fails exactly when the text splits
        and every word of it is accepted. */
    method Reread(future: bool, source: string) returns (ok: bool)
      requires Valid()
      modifies this, allowed
      ensures Valid() && (ok <==> Rereads(table, SplitArgs(source, 0)))
      ensures ok ==> Value() == Run(table, Start(future), CStrings(SplitArgs(source, 0).value))
      ensures ok && Words(SplitArgs(source, 0).value) ==> plain
    {
      hide Regenerates, WellFormed, ArgsAtCommands, BitsOf, LowerArgs, Join, SplitArgs, Step, Decode, Words, CString, Reported,
           TextStep, PlainStep, HoldsText;
      var argv := SplitArgs(source, 0);
      if argv.None? {
        return false;
      }
      Reset(future);
      ghost var words := CStrings(argv.value);
      var i := 0;
      assert words[..0] == [];
      while i < |argv.value|
        invariant 0 <= i <= |argv.value|
        invariant Valid() && Value() == Run(table, Start(future), words[..i])
        invariant forall k :: 0 <= k < i ==> Reported(Decode(table, CString(argv.value[k]))) == None
        invariant Words(argv.value) ==> plain
      {
        var error := SetSelector(argv.value[i]);
        if error.Some? {
          return false;
        }
        if Words(argv.value) {
          WordStaysPlain(table, argv.value, i);
        }
        assert words[i] == CString(argv.value[i]) && words[..i + 1][..i] == words[..i];
        i := i + 1;
      }
      assert words[..i] == words;
      return true;
    }

    /** ACLRecomputeCommandBitsFromCommandRulesAllUsers, for one selector. With
        plain rules its assertions hold and nothing changes. */
    method Recompute() returns (ok: bool)
      requires Valid()
      modifies this, allowed
      ensures Valid() && (ok <==> Rereads(table, SplitArgs(old(text), 0)))
      ensures ok ==> Value() == Run(table, Start(FUTURE in old(Perms().bits)), CStrings(SplitArgs(old(text), 0).value))
      ensures old(plain) ==> ok && Value() == old(Value()) && text == old(text)
    {
      hide Regenerates, WellFormed, Join, Words, Tokens, ArgsAtCommands, SplitArgs, Rereads, CStrings;
      ReservedBit();
      ghost var c := Value();
      if plain {
        PlainRereads(table, c);
      }
      ok := Reread(allowed[FUTURE], text);
    }

    lemma ReservedBit()
      requires Shape()
      ensures allowed[FUTURE] <==> FUTURE in Perms().bits
    {
    }

    /** ACLDescribeSelectorCommandRules; None where an assertion fails or the
        server panics, which plain rules rule out. */
    method Describe() returns (described: Option<string>)
      requires Valid()
      ensures described.Some? <==> Predicts(table, text, Perms())
      ensures described.Some? ==>
        described.value == (if allowed[FUTURE] then "+@all" else "-@all") + (if text == "" then "" else " " + text)
      ensures plain ==> described.Some?
    {
      hide Regenerates, WellFormed, Join, Words, Tokens, ArgsAtCommands, SplitArgs, Rereads, CStrings, BitsOf;
      var fake := new Selector(table);
      ReservedBit();
      if plain {
        PlainRereads(table, Value());
      }
      var ok := fake.Reread(allowed[FUTURE], text);
      if !ok {
        return None;
      }
      var same := SameBits(fake);
      SameSets(allowed[..], fake.allowed[..]);
      if !same {
        return None;
      }
      var rules := RuleText();
      return Some(rules);
    }

    /** The described text, with its last space trimmed. */
    method RuleText() returns (rules: string)
      requires allowed.Length == BITS
      ensures rules == (if allowed[FUTURE] then "+@all" else "-@all") + (if text == "" then "" else " " + text)
    {
      rules := if allowed[FUTURE] then "+@all " else "-@all ";
      if text != "" {
        rules := rules + text + " ";
      }
      rules := rules[..|rules| - 1];
    }

    method SameBits(other: Selector) returns (same: bool)
      requires allowed.Length == other.allowed.Length == BITS
      ensures same <==> allowed[..] == other.allowed[..]
    {
      var i := 0;
      while i < BITS
        invariant 0 <= i <= BITS
        invariant forall j :: 0 <= j < i ==> allowed[j] == other.allowed[j]
      {
        if allowed[i] != other.allowed[i] {
          assert allowed[..][i] != other.allowed[..][i];
          return false;
        }
        i := i + 1;
      }
      return true;
    }
  }

  lemma LowerBare(op: string)
    requires '\0' !in op
    ensures '\0' !in Lower(op)
  {
    assert forall k :: 0 <= k < |op| ==> Lower(op)[k] == LowerChar(op[k]) && op[k] != '\0';
  }

  /** What an operation does to the bitmap, by what it names: +@all and -@all
      decide every bit, an accepted rule sets the bits of what it names to its
      sign and no other, and it is accepted exactly when it names something. */
  ghost predicate Means(t: Table, op: string, a: seq<bool>, b: seq<bool>, m: map<nat, seq<string>>, error: Option<Errno>)
    requires |a| == |b|
  {
    && (Lower(op) in ["allcommands", "+@all"] ==> error.None? && forall k :: 0 <= k < |b| ==> b[k])
    && (Lower(op) in ["nocommands", "-@all"] ==> error.None? && forall k :: 0 <= k < |b| ==> !b[k])
    && (IsRule(op) ==> (error.None? <==> NamesSomething(t, op)))
    && (IsRule(op) && error.None? ==> forall k :: 0 <= k < |b| ==> b[k] == if Decides(t, op, k) then op[0] == '+' else a[k])
    && (forall i: nat, p: nat :: FirstArgRule(t, op, i, p) ==> p + 2 <= |op| && i < |t.commands| && ArgAllowed(m, t.commands[i].id, op[p + 2..]))
    && (error.Some? ==> b == a)
  }

  lemma StepMeans(t: Table, op: string, was: Config, a: seq<bool>, now: Config, b: seq<bool>, m: map<nat, seq<string>>, error: Option<Errno>)
    requires WellFormed(t) && now == Step(t, was, op) && error == Reported(Decode(t, op)) && |a| == |b| == BITS
    requires was.state.bits == BitsOf(a) && now.state.bits == BitsOf(b) && now.state.firstArgs == LowerArgs(m)
    ensures Means(t, op, a, b, m, error)
  {
    hide Decode, WellFormed, Apply, LowerArgs, NamesSomething, Decides, NamesFirstArg, ArgAllowed, KeptRules, Lower, BitsOf, Base;
    AllDecodes(t, op);
    RuleAccepted(t, op);
    SameSets(a, b);
    BaseBits(b);
    if IsRule(op) && error.None? {
      RuleNotAll(t, op);
      RuleDecides(t, op, was.state, a, now.state, b);
    }
    forall i: nat, p: nat | FirstArgRule(t, op, i, p)
      ensures p + 2 <= |op| && i < |t.commands| && ArgAllowed(m, t.commands[i].id, op[p + 2..])
    {
      WellFormedNames(t);
      FirstArgDecodes(t, op, i, p);
      ArgIsAllowed(was.state, now.state, m, t.commands[i].id, op[p + 2..]);
    }
  }

  lemma WellFormedNames(t: Table)
    requires WellFormed(t)
    ensures NamesSplit(t)
  {
  }

  lemma AllDecodes(t: Table, op: string)
    ensures Lower(op) in ["allcommands", "+@all"] ==> Decode(t, op) == AllCommands
    ensures Lower(op) in ["nocommands", "-@all"] ==> Decode(t, op) == NoCommands
  {
    hide DecodeCategory, DecodeCommand, DecodePart, LastBar, Lower, OtherOperation;
    if Lower(op) in ["allcommands", "+@all", "nocommands", "-@all"] {
      AllIsNoOther(op);
    }
  }

  lemma AllIsNoOther(op: string)
    requires Lower(op) in ["allcommands", "+@all", "nocommands", "-@all"]
    ensures !OtherOperation(op)
  {
    hide Lower;
    var l := Lower(op);
    assert |l| >= 5 && l[0] in ['a', '+', 'n', '-'];
    if l == "allcommands" {
      assert |l| == 11 && l[3] == 'c';
    } else if l == "nocommands" {
      assert |l| == 10 && l[0] == 'n';
    }
  }

  lemma RuleNotAll(t: Table, op: string)
    requires IsRule(op) && Reported(Decode(t, op)).None?
    ensures Decode(t, op).Changed?
  {
    hide Lower, OtherOperation, Decode, Lookup, FindCategory, LastBar;
    SignedIsRule(op);
    SignedDecode(t, op);
  }

  lemma BaseBits(b: seq<bool>)
    requires |b| == BITS
    ensures BitsOf(b) == Base(true).bits ==> forall k :: 0 <= k < |b| ==> b[k]
    ensures BitsOf(b) == Base(false).bits ==> forall k :: 0 <= k < |b| ==> !b[k]
  {
    forall k: nat | k < |b|
      ensures b[k] <==> k in BitsOf(b)
    {
    }
  }

  /** An accepted rule on the bitmap. */
  lemma RuleDecides(t: Table, op: string, was: State, a: seq<bool>, now: State, b: seq<bool>)
    requires WellFormed(t) && Decode(t, op).Changed?
    requires |a| == |b| && was.bits == BitsOf(a) && now.bits == BitsOf(b) && now == Apply(was, Decode(t, op).rule.effect)
    ensures op != "" && forall k :: 0 <= k < |a| ==> b[k] == if Decides(t, op, k) then op[0] == '+' else a[k]
  {
    hide Decode, Apply, BitsOf, Decides, WellFormed;
    var e := Decode(t, op).rule.effect;
    DecodeDecides(t, op, 0);
    PermsDecide(was, a, now, b, e);
    forall k | 0 <= k < |a|
      ensures b[k] == if Decides(t, op, k) then op[0] == '+' else a[k]
    {
      DecodeDecides(t, op, k);
    }
  }

  /** Some stored first argument of the command is this one, ignoring case. */
  ghost predicate ArgAllowed(m: map<nat, seq<string>>, id: nat, arg: string) {
    id in m && exists k :: 0 <= k < |m[id]| && Lower(m[id][k]) == Lower(arg)
  }

  ghost predicate FirstArgRule(t: Table, op: string, i: nat, p: nat) {
    |op| > 1 && op[0] == '+' && op[1] != '@' && Lower(op) != "+@all" && NamesFirstArg(t, op[1..], i, p)
  }

  lemma ArgIsAllowed(was: State, now: State, m: map<nat, seq<string>>, id: nat, arg: string)
    requires now == Apply(was, Add(id, Lower(arg))) && now.firstArgs == LowerArgs(m)
    ensures ArgAllowed(m, id, arg)
  {
    hide Lower;
    assert id in now.firstArgs && Lower(arg) in now.firstArgs[id];
    LowerSetHas(m[id], arg);
  }

  lemma FirstArgDecodes(t: Table, op: string, i: nat, p: nat)
    requires NamesSplit(t) && FirstArgRule(t, op, i, p)
    ensures p + 2 <= |op| && i < |t.commands| && Decode(t, op).Changed?
    ensures Decode(t, op).rule.effect == Add(t.commands[i].id, Lower(op[p + 2..]))
  {
    hide Lower, Lookup, NamesCommand, FoundEffect, LastBar, Decode;
    var name := op[1..];
    MinusOther(op);
    SignedDecode(t, op);
    BarOf(op);
    assert !NoBar(name) by { assert name[p] == '|'; }
    FirstArgAt(t, name, i, p);
    assert name[p + 1..] == op[p + 2..];
  }

  lemma MinusOther(op: string)
    requires op != "" && op[0] == '+'
    ensures Lower(op) != "-@all"
  {
    hide Lower;
    SignedLower(op);
  }

  lemma RuleAccepted(t: Table, op: string)
    requires WellFormed(t)
    ensures IsRule(op) ==> (Decode(t, op).Changed? <==> NamesSomething(t, op))
  {
    hide Decode, NamesSomething, Lower;
    if IsRule(op) {
      DecodeAccepts(t, op);
    }
  }

  /** A signed rule other than +@all and -@all. */
  predicate IsRule(op: string) { op != "" && (op[0] == '+' || op[0] == '-') && Lower(op) !in ["+@all", "-@all"] }

  /** The bitmap after an effect on the permissions. */
  lemma PermsDecide(was: State, a: seq<bool>, now: State, b: seq<bool>, e: Effect)
    requires |a| == |b| && was.bits == BitsOf(a) && now.bits == BitsOf(b) && now == Apply(was, e)
    ensures forall k :: 0 <= k < |a| ==> b[k] == if SetsBit(e, k) then e.allow else a[k]
  {
    forall k | 0 <= k < |a|
      ensures b[k] == if SetsBit(e, k) then e.allow else a[k]
    {
      assert a[k] <==> k in was.bits;
      assert b[k] <==> k in now.bits;
    }
  }

  lemma CommandDecides(was: State, a: seq<bool>, now: State, b: seq<bool>, c: Command, allow: bool)
    requires |a| == |b| && was.bits == BitsOf(a) && now.bits == BitsOf(b) && now == Apply(was, TopEffect(c, allow))
    ensures forall k :: 0 <= k < |a| ==> b[k] == if BitOfCommand(c, k) then allow else a[k]
  {
    hide BitsOf, Apply, TopBits, BitOfCommand;
    PermsDecide(was, a, now, b, TopEffect(c, allow));
    forall k | 0 <= k < |a|
      ensures k in TopBits(c) <==> BitOfCommand(c, k)
    {
      TopBitsMeans(c, k);
    }
  }

  lemma SameSets(a: seq<bool>, b: seq<bool>)
    requires |a| == |b|
    ensures a == b <==> BitsOf(a) == BitsOf(b)
  {
    if BitsOf(a) == BitsOf(b) {
      forall i | 0 <= i < |a|
        ensures a[i] == b[i]
      {
        assert i in BitsOf(a) <==> i in BitsOf(b);
      }
    }
  }

  lemma WordStaysPlain(t: Table, words: seq<string>, i: nat)
    requires Words(words) && i < |words|
    ensures PlainStep(true, Decode(t, CString(words[i])))
  {
    hide Decode;
    var w := words[i];
    assert Word(w);
    assert CString(w) == w;
    if Decode(t, w).Changed? {
      ChangedToken(t, w);
    }
  }

  /** The text of plain rules is read back into the configuration. */
  lemma PlainRereads(t: Table, c: Config)
    requires Regenerates(t, c) && TextSplits(c)
    ensures var argv := SplitArgs(Join(Tokens(c.rules)), 0);
      argv == Some(Tokens(c.rules)) && Rereads(t, argv) && Run(t, Start(FUTURE in c.state.bits), CStrings(argv.value)) == c
  {
    hide Decode, SplitArgs, Join, Regenerates;
    SplitTokens(c);
    var words := Tokens(c.rules);
    forall k | 0 <= k < |words|
      ensures CString(words[k]) == words[k] && Reported(Decode(t, words[k])) == None
    {
      TokenOf(t, c, k);
    }
    assert CStrings(words) == words;
    Reapply(t, c);
  }

  lemma TokenOf(t: Table, c: Config, i: nat)
    requires Regenerates(t, c) && TextSplits(c) && i < |c.rules|
    ensures CString(Tokens(c.rules)[i]) == Tokens(c.rules)[i] && Reported(Decode(t, Tokens(c.rules)[i])) == None
  {
    hide Decode;
    assert Stored(t, c.rules[i]);
    assert Word(Tokens(c.rules)[i]);
  }
}
