/** Command rules as ACLSetSelector reads them, over a fixed command table
    (src/acl.c, lookup in src/server.c). */
module AclCommands {
  import opened Ascii
  import opened SdsArgs
  import opened AclText
  import opened AclRules

  // --------------------------------------------------------- command table

  datatype Subcommand = Subcommand(name: string, id: nat, categories: set<nat>)
  datatype Command = Command(name: string, id: nat, categories: set<nat>, subs: seq<Subcommand>)
  datatype Table = Table(commands: seq<Command>, categories: seq<string>)

  predicate NoBar(s: string) { forall k :: 0 <= k < |s| ==> s[k] != '|' }

  ghost predicate NamesSplit(t: Table) {
    && (forall i :: 0 <= i < |t.commands| ==> t.commands[i].name != "" && NoBar(t.commands[i].name))
    && (forall i, j :: 0 <= i < |t.commands| && 0 <= j < |t.commands[i].subs| ==> NoBar(t.commands[i].subs[j].name))
    && (forall c :: 0 <= c < |t.categories| ==> NoBar(t.categories[c]))
  }

  /** Ids are bit numbers below the reserved one; a subcommand shares no id
      with a command. */
  ghost predicate IdsDistinct(t: Table) {
    && (forall i :: 0 <= i < |t.commands| ==> t.commands[i].id < FUTURE)
    && (forall i, j :: 0 <= i < |t.commands| && 0 <= j < |t.commands[i].subs| ==> t.commands[i].subs[j].id < FUTURE)
    && (forall i, j, k :: 0 <= i < |t.commands| && 0 <= j < |t.commands[i].subs| && 0 <= k < |t.commands| ==>
          t.commands[i].subs[j].id != t.commands[k].id)
  }

  ghost predicate WellFormed(t: Table) { NamesSplit(t) && IdsDistinct(t) }

  // ---------------------------------------------------------------- lookup

  datatype Found = NoCommand | Top(i: nat) | Below(i: nat, j: nat)

  /** First command from `i` on with this name, ignoring case. */
  function FindCommand(cs: seq<Command>, name: string, i: nat): (r: nat)
    requires i <= |cs|
    ensures i <= r <= |cs| && (r < |cs| ==> Lower(cs[r].name) == Lower(name))
    decreases |cs| - i
  {
    if i == |cs| || Lower(cs[i].name) == Lower(name) then i else FindCommand(cs, name, i + 1)
  }

  function FindSub(ss: seq<Subcommand>, name: string, j: nat): (r: nat)
    requires j <= |ss|
    ensures j <= r <= |ss| && (r < |ss| ==> Lower(ss[r].name) == Lower(name))
    decreases |ss| - j
  {
    if j == |ss| || Lower(ss[j].name) == Lower(name) then j else FindSub(ss, name, j + 1)
  }

  function FindCategory(cs: seq<string>, name: string, c: nat): (r: nat)
    requires c <= |cs|
    ensures c <= r <= |cs| && (r < |cs| ==> Lower(cs[r]) == Lower(name))
    decreases |cs| - c
  {
    if c == |cs| || Lower(cs[c]) == Lower(name) then c else FindCategory(cs, name, c + 1)
  }

  function FirstBar(s: string, i: nat): (k: nat)
    requires i <= |s|
    ensures i <= k <= |s| && (k < |s| ==> s[k] == '|') && forall j :: i <= j < k ==> s[j] != '|'
    decreases |s| - i
  {
    if i == |s| || s[i] == '|' then i else FirstBar(s, i + 1)
  }

  /** One past the last '|' among the first n characters; 0 without one. */
  function LastBar(s: string, n: nat): (k: nat)
    requires n <= |s|
    ensures k <= n && (k > 0 ==> s[k - 1] == '|') && forall j :: k <= j < n ==> s[j] != '|'
  {
    if n == 0 || s[n - 1] == '|' then n else LastBar(s, n - 1)
  }

  /** ACLLookupCommand: one name, or a container command and a subcommand. */
  function Lookup(t: Table, name: string): (f: Found)
    ensures f.Top? ==> f.i < |t.commands|
    ensures f.Below? ==> f.i < |t.commands| && f.j < |t.commands[f.i].subs|
  {
    var k := FirstBar(name, 0);
    if name == "" then NoCommand
    else if k == |name| then
      var i := FindCommand(t.commands, name, 0);
      if i == |t.commands| then NoCommand else Top(i)
    else if !NoBar(name[k + 1..]) then NoCommand
    else
      var i := FindCommand(t.commands, name[..k], 0);
      if i == |t.commands| || t.commands[i].subs == [] then NoCommand
      else
        var j := FindSub(t.commands[i].subs, name[k + 1..], 0);
        if j == |t.commands[i].subs| then NoCommand else Below(i, j)
  }

  function FullName(t: Table, f: Found): string
    requires f.Top? ==> f.i < |t.commands|
    requires f.Below? ==> f.i < |t.commands| && f.j < |t.commands[f.i].subs|
  {
    match f
    case NoCommand => ""
    case Top(i) => t.commands[i].name
    case Below(i, j) => t.commands[i].name + "|" + t.commands[i].subs[j].name
  }

  lemma FullNameIsName(t: Table, name: string)
    requires Lookup(t, name) != NoCommand
    ensures Lower(FullName(t, Lookup(t, name))) == Lower(name)
  {
    var f := Lookup(t, name);
    if f.Below? {
      var k := FirstBar(name, 0);
      var c, s := t.commands[f.i].name, t.commands[f.i].subs[f.j].name;
      assert Lower(c) == Lower(name[..k]) && Lower(s) == Lower(name[k + 1..]);
      LowerJoined(c, s, name, k);
    }
  }

  lemma LowerJoined(c: string, s: string, name: string, k: nat)
    requires k < |name| && name[k] == '|' && Lower(c) == Lower(name[..k]) && Lower(s) == Lower(name[k + 1..])
    ensures Lower(c + "|" + s) == Lower(name)
  {
    var l := c + "|" + s;
    assert |c| == |Lower(c)| == k && |s| == |Lower(s)| == |name| - k - 1;
    forall i | 0 <= i < |l|
      ensures LowerChar(l[i]) == LowerChar(name[i])
    {
      if i < k {
        assert LowerChar(l[i]) == Lower(c)[i] == Lower(name[..k])[i];
      } else if i > k {
        assert LowerChar(l[i]) == Lower(s)[i - k - 1] == Lower(name[k + 1..])[i - k - 1];
      }
    }
  }

  // --------------------------------------------------------- case ignored

  lemma {:induction false} FindCommandLower(cs: seq<Command>, a: string, b: string, i: nat)
    requires i <= |cs| && Lower(a) == Lower(b)
    ensures FindCommand(cs, a, i) == FindCommand(cs, b, i)
    decreases |cs| - i
  {
    if i < |cs| {
      FindCommandLower(cs, a, b, i + 1);
    }
  }

  lemma {:induction false} FindSubLower(ss: seq<Subcommand>, a: string, b: string, j: nat)
    requires j <= |ss| && Lower(a) == Lower(b)
    ensures FindSub(ss, a, j) == FindSub(ss, b, j)
    decreases |ss| - j
  {
    if j < |ss| {
      FindSubLower(ss, a, b, j + 1);
    }
  }

  lemma {:induction false} FindCategoryLower(cs: seq<string>, a: string, b: string, c: nat)
    requires c <= |cs| && Lower(a) == Lower(b)
    ensures FindCategory(cs, a, c) == FindCategory(cs, b, c)
    decreases |cs| - c
  {
    if c < |cs| {
      FindCategoryLower(cs, a, b, c + 1);
    }
  }

  lemma LowerChars(a: string, b: string)
    requires Lower(a) == Lower(b)
    ensures |a| == |b|
    ensures forall k :: 0 <= k < |a| ==> LowerChar(a[k]) == LowerChar(b[k])
    ensures forall k :: 0 <= k < |a| ==> (a[k] == '|' <==> b[k] == '|')
  {
    assert |a| == |Lower(a)| == |Lower(b)| == |b|;
    forall k | 0 <= k < |a|
      ensures LowerChar(a[k]) == LowerChar(b[k])
    {
      assert Lower(a)[k] == Lower(b)[k];
    }
  }

  lemma LowerSlice(a: string, b: string, i: nat, j: nat)
    requires Lower(a) == Lower(b) && i <= j <= |a|
    ensures |a| == |b| && Lower(a[i..j]) == Lower(b[i..j])
  {
    LowerChars(a, b);
  }

  lemma LookupLower(t: Table, a: string, b: string)
    requires Lower(a) == Lower(b)
    ensures Lookup(t, a) == Lookup(t, b)
  {
    hide Lower, FirstBar, FindCommand, FindSub, LowerChar;
    LowerMarks(a, b);
    var k := FirstBar(a, 0);
    SameFirstBar(a, b);
    FindCommandLower(t.commands, a, b, 0);
    if k < |a| {
      HalvesLower(a, b, k);
      SameNoBar(a[k + 1..], b[k + 1..]);
      FindCommandLower(t.commands, a[..k], b[..k], 0);
      var i := FindCommand(t.commands, a[..k], 0);
      if i < |t.commands| {
        FindSubLower(t.commands[i].subs, a[k + 1..], b[k + 1..], 0);
      }
    }
  }

  lemma HalvesLower(a: string, b: string, k: nat)
    requires Lower(a) == Lower(b) && k < |a|
    ensures |a| == |b| && Lower(a[..k]) == Lower(b[..k]) && Lower(a[k + 1..]) == Lower(b[k + 1..])
  {
    hide Lower;
    LowerSlice(a, b, 0, k);
    LowerSlice(a, b, k + 1, |a|);
    assert a[0..k] == a[..k] && b[0..k] == b[..k];
    assert a[k + 1..|a|] == a[k + 1..] && b[k + 1..|a|] == b[k + 1..];
  }

  lemma SameNoBar(a: string, b: string)
    requires Lower(a) == Lower(b)
    ensures NoBar(a) <==> NoBar(b)
  {
    LowerChars(a, b);
  }

  lemma SameFirstBar(a: string, b: string)
    requires |a| == |b| && forall k :: 0 <= k < |a| ==> (a[k] == '|' <==> b[k] == '|')
    ensures FirstBar(a, 0) == FirstBar(b, 0)
    ensures LastBar(a, |a|) == LastBar(b, |b|)
  {
    var k, l := FirstBar(a, 0), FirstBar(b, 0);
    assert !(k < l) && !(l < k);
    var m, n := LastBar(a, |a|), LastBar(b, |b|);
    assert !(m < n) && !(n < m);
  }

  // ------------------------------------------------------- reading a rule

  function SubIds(ss: seq<Subcommand>, n: nat): (ids: set<nat>)
    requires n <= |ss|
    ensures forall j :: 0 <= j < n ==> ss[j].id in ids
    ensures forall id :: id in ids ==> exists j :: 0 <= j < n && ss[j].id == id
  {
    if n == 0 then {} else SubIds(ss, n - 1) + {ss[n - 1].id}
  }

  /** The bits that allowing or blocking a whole command decides. */
  function TopBits(c: Command): set<nat> { {c.id} + SubIds(c.subs, |c.subs|) }

  function TopEffect(c: Command, allow: bool): Effect { Perm(TopBits(c), {c.id}, allow) }

  function BelowEffect(s: Subcommand, allow: bool): Effect { Perm({s.id}, {}, allow) }

  /** The bits of a category: its commands, each with all subcommands, and the
      subcommands that are in it themselves. */
  function CategorySubs(ss: seq<Subcommand>, c: nat, n: nat): (ids: set<nat>)
    requires n <= |ss|
    ensures forall id :: id in ids ==> exists j :: 0 <= j < n && ss[j].id == id
  {
    if n == 0 then {}
    else CategorySubs(ss, c, n - 1) + (if c in ss[n - 1].categories then {ss[n - 1].id} else {})
  }

  function CategoryBits(cs: seq<Command>, c: nat, n: nat): set<nat>
    requires n <= |cs|
  {
    if n == 0 then {}
    else CategoryBits(cs, c, n - 1) + (if c in cs[n - 1].categories then TopBits(cs[n - 1]) else {})
         + CategorySubs(cs[n - 1].subs, c, |cs[n - 1].subs|)
  }

  function CategoryResets(cs: seq<Command>, c: nat, n: nat): (ids: set<nat>)
    requires n <= |cs|
  {
    if n == 0 then {}
    else CategoryResets(cs, c, n - 1) + (if c in cs[n - 1].categories then {cs[n - 1].id} else {})
  }

  function CategoryEffect(t: Table, c: nat, allow: bool): Effect {
    Perm(CategoryBits(t.commands, c, |t.commands|), CategoryResets(t.commands, c, |t.commands|), allow)
  }

  function FoundEffect(t: Table, f: Found, allow: bool): Effect
    requires f.Top? || f.Below?
    requires f.Top? ==> f.i < |t.commands|
    requires f.Below? ==> f.i < |t.commands| && f.j < |t.commands[f.i].subs|
  {
    if f.Top? then TopEffect(t.commands[f.i], allow) else BelowEffect(t.commands[f.i].subs[f.j], allow)
  }

  datatype Errno = ENOENT | ECHILD | EINVAL
  datatype Outcome = AllCommands | NoCommands | Changed(rule: Rule) | Failed(error: Errno) | OtherOp

  /** Operations on keys, channels and databases. */
  predicate OtherOperation(op: string) {
    var l := Lower(op);
    || l in ["allkeys", "resetkeys", "allchannels", "resetchannels", "alldbs", "resetdbs"]
    || "db=" <= l || (l != "" && l[0] in ['~', '%', '&'])
  }

  /** The branches of ACLSetSelector; operations on keys, channels and databases
      leave the command permissions alone. */
  function Decode(t: Table, op: string): Outcome {
    if OtherOperation(op) then OtherOp
    else if Lower(op) == "allcommands" || Lower(op) == "+@all" then AllCommands
    else if Lower(op) == "nocommands" || Lower(op) == "-@all" then NoCommands
    else if op == "" || (op[0] != '+' && op[0] != '-') then Failed(EINVAL)
    else if |op| > 1 && op[1] == '@' then DecodeCategory(t, op[0] == '+', op[1..])
    else if op[0] == '-' || LastBar(op, |op|) == 0 then DecodeCommand(t, op[0] == '+', op[1..])
    else DecodePart(t, op[1..])
  }

  function DecodeCategory(t: Table, allow: bool, body: string): Outcome
    requires body != ""
  {
    var c := FindCategory(t.categories, body[1..], 0);
    if c == |t.categories| then Failed(ENOENT)
    else Changed(Rule(allow, Lower(body), CategoryEffect(t, c, allow)))
  }

  function DecodeCommand(t: Table, allow: bool, name: string): Outcome {
    var f := Lookup(t, name);
    if f.NoCommand? then Failed(ENOENT)
    else Changed(Rule(allow, Lower(FullName(t, f)), FoundEffect(t, f, allow)))
  }

  /** A '+' rule with a '|': a subcommand, or a first argument. */
  function DecodePart(t: Table, body: string): Outcome {
    var k := LastBar(body, |body|);
    if k == 0 then Failed(ENOENT)
    else
      match Lookup(t, body[..k - 1])
      case NoCommand => Failed(ENOENT)
      case Below(_, _) => Failed(ECHILD)
      case Top(i) =>
        if k == |body| then Failed(EINVAL)
        else if t.commands[i].subs == [] then
          Changed(Rule(true, Lower(body), Add(t.commands[i].id, Lower(body[k..]))))
        else
          var f := Lookup(t, body);
          if f.NoCommand? then Failed(ENOENT) else Changed(Rule(true, Lower(body), FoundEffect(t, f, true)))
  }

  /** The retained token of an accepted rule is the rule in lower case. */
  lemma TokenIsRule(t: Table, op: string)
    requires Decode(t, op).Changed?
    ensures Token(Decode(t, op).rule) == Lower(op)
  {
    var r := Decode(t, op).rule;
    assert Lower(op) == [LowerChar(op[0])] + Lower(op[1..]);
    if !(|op| > 1 && op[1] == '@') && (op[0] == '-' || LastBar(op, |op|) == 0) {
      FullNameIsName(t, op[1..]);
    }
    assert r.body == Lower(op[1..]);
  }

  lemma DecodeLower(t: Table, a: string, b: string)
    requires Lower(a) == Lower(b)
    ensures Decode(t, a) == Decode(t, b)
  {
    hide Lower, LowerChar, DecodeCategory, DecodeCommand, DecodePart;
    LowerMarks(a, b);
    SameFirstBar(a, b);
    if a != "" {
      assert a[1..|a|] == a[1..] && b[1..|b|] == b[1..];
      LowerSlice(a, b, 1, |a|);
      DecodeCommandLower(t, a[1..], b[1..], a[0] == '+');
      DecodePartLower(t, a[1..], b[1..]);
      if |a| > 1 {
        DecodeCategoryLower(t, a[1..], b[1..], a[0] == '+');
      }
    }
  }

  lemma LowerMarks(a: string, b: string)
    requires Lower(a) == Lower(b)
    ensures |a| == |b|
    ensures forall k :: 0 <= k < |a| ==> (a[k] == '|' <==> b[k] == '|')
    ensures a != "" ==> (a[0] == '+' <==> b[0] == '+') && (a[0] == '-' <==> b[0] == '-')
    ensures |a| > 1 ==> (a[1] == '@' <==> b[1] == '@')
  {
    LowerChars(a, b);
  }

  lemma DecodeCommandLower(t: Table, a: string, b: string, allow: bool)
    requires Lower(a) == Lower(b)
    ensures DecodeCommand(t, allow, a) == DecodeCommand(t, allow, b)
  {
    LookupLower(t, a, b);
  }

  lemma DecodeCategoryLower(t: Table, a: string, b: string, allow: bool)
    requires Lower(a) == Lower(b) && a != "" && b != ""
    ensures DecodeCategory(t, allow, a) == DecodeCategory(t, allow, b)
  {
    assert a[1..|a|] == a[1..] && b[1..|b|] == b[1..];
    LowerSlice(a, b, 1, |a|);
    FindCategoryLower(t.categories, a[1..], b[1..], 0);
  }

  lemma DecodePartLower(t: Table, a: string, b: string)
    requires Lower(a) == Lower(b)
    ensures DecodePart(t, a) == DecodePart(t, b)
  {
    hide Lower, Lookup, FullName, FoundEffect;
    LowerChars(a, b);
    SameFirstBar(a, b);
    LookupLower(t, a, b);
    var k := LastBar(a, |a|);
    if k > 0 {
      assert a[0..k - 1] == a[..k - 1] && b[0..k - 1] == b[..k - 1];
      assert a[k..|a|] == a[k..] && b[k..|b|] == b[k..];
      LowerSlice(a, b, 0, k - 1);
      LowerSlice(a, b, k, |a|);
      LookupLower(t, a[..k - 1], b[..k - 1]);
    }
  }

  /** A rule that the retained text can hold: its token reads back as it. */
  ghost predicate Stored(t: Table, r: Rule) { Decode(t, Token(r)) == Changed(r) }

  lemma AcceptedIsStored(t: Table, op: string)
    requires Decode(t, op).Changed?
    ensures Stored(t, Decode(t, op).rule)
  {
    TokenIsRule(t, op);
    LowerTwice(op);
    DecodeLower(t, op, Lower(op));
  }

  // ------------------------------------------------- what a rule names

  /** The first command with this name, ignoring case. */
  ghost predicate NamesCommand(t: Table, name: string, i: nat) {
    && i < |t.commands| && name != "" && NoBar(name) && Lower(t.commands[i].name) == Lower(name)
    && forall k :: 0 <= k < i ==> Lower(t.commands[k].name) != Lower(name)
  }

  /** A container command, a bar, and its first subcommand with this name. */
  ghost predicate NamesSub(t: Table, name: string, i: nat, j: nat) {
    exists p :: 0 <= p < |name| && name[p] == '|' && NamesCommand(t, name[..p], i) && NoBar(name[p + 1..])
                && SubNamed(t.commands[i].subs, name[p + 1..], j)
  }

  ghost predicate SubNamed(ss: seq<Subcommand>, name: string, j: nat) {
    j < |ss| && Lower(ss[j].name) == Lower(name) && forall k :: 0 <= k < j ==> Lower(ss[k].name) != Lower(name)
  }

  ghost predicate NamesCategory(t: Table, name: string, c: nat) {
    c < |t.categories| && Lower(t.categories[c]) == Lower(name) && forall k :: 0 <= k < c ==> Lower(t.categories[k]) != Lower(name)
  }

  /** The bit of a command or of one of its subcommands. */
  ghost predicate BitOfCommand(c: Command, k: nat) { k == c.id || exists j :: 0 <= j < |c.subs| && c.subs[j].id == k }

  /** The bit of a command in the category or of its subcommands, or of a
      subcommand that is in the category itself. */
  ghost predicate BitOfCategory(c: Command, category: nat, k: nat) {
    (category in c.categories && BitOfCommand(c, k)) || exists j :: 0 <= j < |c.subs| && category in c.subs[j].categories && c.subs[j].id == k
  }

  /** The rule is about this bit. */
  ghost predicate Decides(t: Table, op: string, k: nat)
    requires op != ""
  {
    var name := op[1..];
    if name != "" && name[0] == '@' then
      exists c: nat :: NamesCategory(t, name[1..], c) && exists i :: 0 <= i < |t.commands| && BitOfCategory(t.commands[i], c, k)
    else
      || (exists i: nat :: NamesCommand(t, name, i) && BitOfCommand(t.commands[i], k))
      || (exists i: nat, j: nat :: NamesSub(t, name, i, j) && i < |t.commands| && j < |t.commands[i].subs| && k == t.commands[i].subs[j].id)
  }

  lemma {:induction false} FindCommandFirst(cs: seq<Command>, name: string, i: nat)
    requires i <= |cs|
    ensures forall k :: i <= k < FindCommand(cs, name, i) ==> Lower(cs[k].name) != Lower(name)
    decreases |cs| - i
  {
    hide Lower;
    if i < |cs| {
      FindCommandFirst(cs, name, i + 1);
    }
  }

  lemma {:induction false} FindSubFirst(ss: seq<Subcommand>, name: string, j: nat)
    requires j <= |ss|
    ensures forall k :: j <= k < FindSub(ss, name, j) ==> Lower(ss[k].name) != Lower(name)
    decreases |ss| - j
  {
    hide Lower;
    if j < |ss| {
      FindSubFirst(ss, name, j + 1);
    }
  }

  lemma {:induction false} FindCategoryFirst(cs: seq<string>, name: string, c: nat)
    requires c <= |cs|
    ensures forall k :: c <= k < FindCategory(cs, name, c) ==> Lower(cs[k]) != Lower(name)
    decreases |cs| - c
  {
    hide Lower;
    if c < |cs| {
      FindCategoryFirst(cs, name, c + 1);
    }
  }

  lemma FoundCategory(t: Table, name: string)
    ensures forall c: nat :: NamesCategory(t, name, c) <==> c == FindCategory(t.categories, name, 0) < |t.categories|
  {
    hide Lower;
    FindCategoryFirst(t.categories, name, 0);
    var r := FindCategory(t.categories, name, 0);
    forall c: nat
      ensures NamesCategory(t, name, c) <==> c == r < |t.categories|
    {
      if NamesCategory(t, name, c) {
        assert !(c < r) && !(r < c);
      }
    }
  }

  lemma FoundCommand(t: Table, name: string)
    requires name != "" && NoBar(name)
    ensures forall i: nat :: NamesCommand(t, name, i) <==> i == FindCommand(t.commands, name, 0) < |t.commands|
  {
    hide Lower;
    FindCommandFirst(t.commands, name, 0);
    var r := FindCommand(t.commands, name, 0);
    forall i: nat
      ensures NamesCommand(t, name, i) <==> i == r < |t.commands|
    {
      if NamesCommand(t, name, i) {
        assert !(i < r) && !(r < i);
      }
    }
  }

  lemma FoundSub(ss: seq<Subcommand>, name: string)
    ensures forall j: nat :: SubNamed(ss, name, j) <==> j == FindSub(ss, name, 0) < |ss|
  {
    hide Lower;
    FindSubFirst(ss, name, 0);
    var r := FindSub(ss, name, 0);
    forall j: nat
      ensures SubNamed(ss, name, j) <==> j == r < |ss|
    {
      if SubNamed(ss, name, j) {
        assert !(j < r) && !(r < j);
      }
    }
  }

  /** The lookup finds exactly what is named. */
  lemma LookupMeans(t: Table, name: string)
    requires NamesSplit(t)
    ensures forall i: nat :: NamesCommand(t, name, i) <==> Lookup(t, name) == Top(i)
    ensures forall i: nat, j: nat :: NamesSub(t, name, i, j) <==> Lookup(t, name) == Below(i, j)
  {
    hide Lower, FindCommand, FindSub, SubNamed;
    var p := FirstBar(name, 0);
    if p == |name| {
      assert NoBar(name);
      if name != "" {
        FoundCommand(t, name);
      }
    } else {
      BarredLookup(t, name, p);
    }
  }

  lemma BarredLookup(t: Table, name: string, p: nat)
    requires NamesSplit(t) && p == FirstBar(name, 0) < |name|
    ensures forall i: nat :: !NamesCommand(t, name, i) && Lookup(t, name) != Top(i)
    ensures forall i: nat, j: nat :: NamesSub(t, name, i, j) <==> Lookup(t, name) == Below(i, j)
  {
    hide Lower, Lookup, NamesSub, NamesCommand;
    CommandHasNoBar(t, name);
    LookupSplit(t, name, p);
    forall i: nat, j: nat
      ensures NamesSub(t, name, i, j) <==> Lookup(t, name) == Below(i, j)
    {
      BarredSub(t, name, p, i, j);
    }
  }

  /** The lookup of a name with a bar. */
  lemma LookupSplit(t: Table, name: string, p: nat)
    requires p == FirstBar(name, 0) < |name|
    ensures var c := FindCommand(t.commands, name[..p], 0);
      Lookup(t, name) ==
        if !NoBar(name[p + 1..]) || c == |t.commands| then NoCommand
        else if FindSub(t.commands[c].subs, name[p + 1..], 0) == |t.commands[c].subs| then NoCommand
        else Below(c, FindSub(t.commands[c].subs, name[p + 1..], 0))
    ensures !NoBar(name)
  {
    hide Lower, NoBar;
    BarIn(name, p);
  }

  lemma BarIn(name: string, p: nat)
    requires p < |name| && name[p] == '|'
    ensures !NoBar(name)
  {
  }

  lemma BarredSub(t: Table, name: string, p: nat, i: nat, j: nat)
    requires NamesSplit(t) && p == FirstBar(name, 0) < |name|
    ensures NamesSub(t, name, i, j) <==> Lookup(t, name) == Below(i, j)
  {
    hide Lower, FindCommand, FindSub, SubNamed, Lookup, NamesCommand, NoBar, NamesSub;
    LookupSplit(t, name, p);
    SubSplit(t, name, p, i, j);
    NoBarBefore(name, p);
    if p == 0 {
      EmptyNameUnknown(t);
      EmptyNamesNothing(t, i);
      assert name[..p] == "";
    } else {
      FoundCommand(t, name[..p]);
    }
    if i < |t.commands| {
      FoundSub(t.commands[i].subs, name[p + 1..]);
    }
    CommandInTable(t, name[..p], i);
  }

  lemma CommandInTable(t: Table, name: string, i: nat)
    ensures NamesCommand(t, name, i) ==> i < |t.commands|
  {
  }

  lemma EmptyNamesNothing(t: Table, i: nat)
    ensures !NamesCommand(t, "", i)
  {
  }

  lemma NoBarBefore(name: string, p: nat)
    requires p == FirstBar(name, 0)
    ensures NoBar(name[..p])
  {
  }

  lemma SubSplit(t: Table, name: string, p: nat, i: nat, j: nat)
    requires p == FirstBar(name, 0) < |name|
    ensures NamesSub(t, name, i, j) <==>
      NamesCommand(t, name[..p], i) && NoBar(name[p + 1..]) && i < |t.commands| && SubNamed(t.commands[i].subs, name[p + 1..], j)
  {
    hide Lower, SubNamed;
    if NamesSub(t, name, i, j) {
      var q :| 0 <= q < |name| && name[q] == '|' && NamesCommand(t, name[..q], i) && NoBar(name[q + 1..])
               && SubNamed(t.commands[i].subs, name[q + 1..], j);
      OnlyBar(name, p, q);
    }
  }

  lemma OnlyBar(name: string, p: nat, q: nat)
    requires p == FirstBar(name, 0) < |name| && q < |name| && name[q] == '|' && NoBar(name[..q])
    ensures q == p
  {
    assert forall k :: 0 <= k < q ==> name[..q][k] == name[k];
  }

  lemma EmptyNameUnknown(t: Table)
    requires NamesSplit(t)
    ensures FindCommand(t.commands, "", 0) == |t.commands|
  {
    assert forall i :: 0 <= i < |t.commands| ==> |Lower(t.commands[i].name)| == |t.commands[i].name| > 0;
    assert Lower("") == "";
  }

  // ---------------------------------------------- what a rule decides

  lemma TopBitsMeans(c: Command, k: nat)
    ensures k in TopBits(c) <==> BitOfCommand(c, k)
  {
  }

  lemma {:induction false} CategorySubsMeans(ss: seq<Subcommand>, c: nat, n: nat, k: nat)
    requires n <= |ss|
    ensures k in CategorySubs(ss, c, n) <==> exists j :: 0 <= j < n && c in ss[j].categories && ss[j].id == k
    decreases n
  {
    if n > 0 {
      CategorySubsMeans(ss, c, n - 1, k);
    }
  }

  lemma {:induction false} CategoryBitsMeans(cs: seq<Command>, c: nat, n: nat, k: nat)
    requires n <= |cs|
    ensures k in CategoryBits(cs, c, n) <==> exists i :: 0 <= i < n && BitOfCategory(cs[i], c, k)
    decreases n
  {
    hide TopBits, BitOfCommand, CategorySubs;
    if n > 0 {
      CategoryBitsMeans(cs, c, n - 1, k);
      TopBitsMeans(cs[n - 1], k);
      CategorySubsMeans(cs[n - 1].subs, c, |cs[n - 1].subs|, k);
    }
  }

  ghost predicate SetsBit(e: Effect, k: nat) { e.Perm? && k in e.bits }

  /** An accepted rule allows or denies, by its sign, exactly the bits of what it
      names. */
  lemma DecodeDecides(t: Table, op: string, k: nat)
    requires WellFormed(t) && Decode(t, op).Changed?
    ensures op != "" && (op[0] == '+' || op[0] == '-')
    ensures var r := Decode(t, op).rule;
      && r.allow == (op[0] == '+') && (r.effect.Perm? ==> r.effect.allow == r.allow)
      && (SetsBit(r.effect, k) <==> Decides(t, op, k))
  {
    hide Lower, NamesCommand, NamesSub, NamesCategory, BitOfCommand, BitOfCategory, CategoryBits, TopBits, Lookup, FindCategory,
         OtherOperation, LastBar;
    var name := op[1..];
    if name != "" && name[0] == '@' {
      assert op[1] == name[0];
      FoundCategory(t, name[1..]);
      var c := FindCategory(t.categories, name[1..], 0);
      CategoryBitsMeans(t.commands, c, |t.commands|, k);
      assert NamesCategory(t, name[1..], c);
      assert Decode(t, op) == DecodeCategory(t, op[0] == '+', name);
      assert Decides(t, op, k) <==> exists i :: 0 <= i < |t.commands| && BitOfCategory(t.commands[i], c, k);
    } else {
      assert name != "" ==> op[1] == name[0];
      LookupMeans(t, name);
      var f := Lookup(t, name);
      if f.Top? {
        TopBitsMeans(t.commands[f.i], k);
      }
      PartNamed(t, name);
    }
  }

  /** A body that names a command before its last bar: when that command has
      no subcommands, the whole body names nothing. */
  lemma PartLookup(t: Table, body: string)
    ensures var p := LastBar(body, |body|);
      p > 0 && Lookup(t, body[..p - 1]).Top? && t.commands[Lookup(t, body[..p - 1]).i].subs == [] ==> Lookup(t, body) == NoCommand
  {
    hide Lower, FindCommand, FindSub, LastBar;
    var p := LastBar(body, |body|);
    if p > 0 && Lookup(t, body[..p - 1]).Top? {
      TopHasNoBar(t, body[..p - 1]);
      BarAt(body, p - 1);
      LookupSplit(t, body, p - 1);
    }
  }

  lemma TopHasNoBar(t: Table, name: string)
    requires Lookup(t, name).Top?
    ensures NoBar(name)
  {
  }

  lemma BarAt(body: string, k: nat)
    requires k < |body| && body[k] == '|' && NoBar(body[..k])
    ensures FirstBar(body, 0) == k
  {
    var f := FirstBar(body, 0);
    assert forall j :: 0 <= j < k ==> body[..k][j] == body[j];
  }

  lemma PartNamed(t: Table, body: string)
    ensures var p := LastBar(body, |body|);
      p > 0 && Lookup(t, body[..p - 1]).Top? && t.commands[Lookup(t, body[..p - 1]).i].subs == [] ==> Lookup(t, body) == NoCommand
    ensures LastBar(body, |body|) > 0 ==> !Lookup(t, body).Top?
  {
    hide Lookup, LastBar;
    PartLookup(t, body);
    var p := LastBar(body, |body|);
    if p > 0 {
      BarIn(body, p - 1);
      if Lookup(t, body).Top? {
        TopHasNoBar(t, body);
      }
    }
  }

  // ------------------------------------------------- which rules are accepted

  /** A plus rule for a first argument: a command without subcommands, a bar and
      the argument. */
  ghost predicate NamesFirstArg(t: Table, name: string, i: nat, p: nat) {
    && p + 1 < |name| && name[p] == '|' && NamesCommand(t, name[..p], i) && t.commands[i].subs == [] && NoBar(name[p + 1..])
  }

  /** A signed rule names something: a category, a command, a subcommand or, with
      a plus, a first argument. */
  ghost predicate NamesSomething(t: Table, op: string)
    requires op != ""
  {
    var name := op[1..];
    if name != "" && name[0] == '@' then exists c: nat :: NamesCategory(t, name[1..], c)
    else
      || (exists i: nat :: NamesCommand(t, name, i))
      || ((op[0] == '+' ==> op[|op| - 1] != '|') && exists i: nat, j: nat :: NamesSub(t, name, i, j))
      || (op[0] == '+' && exists i: nat, p: nat :: NamesFirstArg(t, name, i, p))
  }

  /** Signed rules other than +@all and -@all are accepted exactly when they name
      something. */
  lemma DecodeAccepts(t: Table, op: string)
    requires NamesSplit(t) && op != "" && (op[0] == '+' || op[0] == '-') && Lower(op) != "+@all" && Lower(op) != "-@all"
    ensures Decode(t, op).Changed? <==> NamesSomething(t, op)
  {
    hide NamesCommand, NamesSub, NamesCategory, NamesFirstArg, Lookup, FindCategory, LastBar, FoundEffect, CategoryEffect;
    var name := op[1..];
    SignedDecode(t, op);
    if name != "" && name[0] == '@' {
      FoundCategory(t, name[1..]);
      assert NamesCategory(t, name[1..], FindCategory(t.categories, name[1..], 0)) || !NamesSomething(t, op);
    } else {
      LookupMeans(t, name);
      BarOf(op);
      if op[0] == '-' || LastBar(op, |op|) == 0 {
        NamedLookup(t, name);
        NoFirstArg(t, op);
      } else {
        PartAccepts(t, op);
      }
    }
  }

  lemma SignedDecode(t: Table, op: string)
    requires op != "" && (op[0] == '+' || op[0] == '-') && Lower(op) != "+@all" && Lower(op) != "-@all"
    ensures Decode(t, op) ==
      if |op| > 1 && op[1] == '@' then DecodeCategory(t, op[0] == '+', op[1..])
      else if op[0] == '-' || LastBar(op, |op|) == 0 then DecodeCommand(t, op[0] == '+', op[1..])
      else DecodePart(t, op[1..])
  {
    hide DecodeCategory, DecodeCommand, DecodePart, LastBar, Lower, OtherOperation;
    SignedLower(op);
    SignedIsRule(op);
  }

  lemma SignedLower(op: string)
    requires op != "" && (op[0] == '+' || op[0] == '-')
    ensures Lower(op) != "" && Lower(op)[0] == op[0]
  {
    assert Lower(op)[0] == LowerChar(op[0]);
  }

  lemma SignedIsRule(op: string)
    requires op != "" && (op[0] == '+' || op[0] == '-')
    ensures !OtherOperation(op) && Lower(op) != "allcommands" && Lower(op) != "nocommands"
  {
    hide Lower;
    SignedLower(op);
  }

  lemma NamedLookup(t: Table, name: string)
    requires NamesSplit(t)
    ensures Lookup(t, name) != NoCommand <==> (exists i: nat :: NamesCommand(t, name, i)) || (exists i: nat, j: nat :: NamesSub(t, name, i, j))
  {
    hide NamesCommand, NamesSub, Lookup;
    LookupMeans(t, name);
    match Lookup(t, name)
    case Top(i) => assert NamesCommand(t, name, i);
    case Below(i, j) => assert NamesSub(t, name, i, j);
    case NoCommand =>
  }

  /** The last bar of a signed rule and of its body. */
  lemma BarOf(op: string)
    requires op != "" && op[0] != '|'
    ensures LastBar(op, |op|) == if LastBar(op[1..], |op| - 1) == 0 then 0 else LastBar(op[1..], |op| - 1) + 1
    ensures LastBar(op, |op|) == 0 <==> NoBar(op[1..])
  {
    var name := op[1..];
    assert forall k :: 0 <= k < |name| ==> name[k] == op[k + 1];
    var a, b := LastBar(op, |op|), LastBar(name, |name|);
    if a > 0 && b > 0 {
      assert !(a < b + 1) && !(b + 1 < a);
    }
  }

  lemma NoFirstArg(t: Table, op: string)
    requires op != "" && (op[0] == '-' || (op[0] == '+' && NoBar(op[1..])))
    ensures op[0] == '+' ==> forall i: nat, p: nat :: !NamesFirstArg(t, op[1..], i, p)
    ensures op[0] == '+' && op[|op| - 1] == '|' ==> false
  {
    var name := op[1..];
    assert |op| > 1 ==> op[|op| - 1] == name[|name| - 1];
  }

  /** A plus rule with a bar. */
  lemma PartAccepts(t: Table, op: string)
    requires NamesSplit(t) && op != "" && op[0] == '+' && !NoBar(op[1..]) && op[1] != '@'
    ensures DecodePart(t, op[1..]).Changed? <==> NamesSomething(t, op)
  {
    hide Lower, NamesCommand, Lookup, FoundEffect;
    var name := op[1..];
    var k := LastBar(name, |name|);
    BarOf(op);
    var copy := name[..k - 1];
    LookupMeans(t, name);
    LookupMeans(t, copy);
    PartNamed(t, name);
    assert op[|op| - 1] == name[|name| - 1];
    CommandHasNoBar(t, name);
    forall i: nat, p: nat
      ensures NamesFirstArg(t, name, i, p) <==> p == k - 1 && k < |name| && Lookup(t, copy) == Top(i) && t.commands[i].subs == []
    {
      FirstArgAt(t, name, i, p);
    }
    forall i: nat, j: nat | NamesSub(t, name, i, j)
      ensures Lookup(t, copy) == Top(i)
    {
      SubAt(t, name, i, j);
    }
    NamedLookup(t, name);
    if Lookup(t, copy).Top? && k < |name| && t.commands[Lookup(t, copy).i].subs == [] {
      assert NamesFirstArg(t, name, Lookup(t, copy).i, k - 1);
    }
    EndsInBar(name);
  }

  lemma EndsInBar(name: string)
    requires name != ""
    ensures LastBar(name, |name|) == |name| <==> name[|name| - 1] == '|'
  {
  }

  lemma CommandHasNoBar(t: Table, name: string)
    ensures !NoBar(name) ==> forall i: nat :: !NamesCommand(t, name, i)
  {
  }

  lemma FirstArgAt(t: Table, name: string, i: nat, p: nat)
    requires NamesSplit(t) && LastBar(name, |name|) > 0
    ensures var k := LastBar(name, |name|);
      NamesFirstArg(t, name, i, p) <==>
        p == k - 1 && k < |name| && Lookup(t, name[..k - 1]) == Top(i) && i < |t.commands| && t.commands[i].subs == []
  {
    hide Lower, Lookup, NamesCommand, NoBar, LastBar;
    var k := LastBar(name, |name|);
    LookupMeans(t, name[..k - 1]);
    CommandInTable(t, name[..k - 1], i);
    if NamesFirstArg(t, name, i, p) {
      LastBarAt(name, p);
    }
    NoBarAfter(name);
  }

  lemma LastBarAt(name: string, p: nat)
    requires p < |name| && name[p] == '|' && NoBar(name[p + 1..])
    ensures LastBar(name, |name|) == p + 1
  {
    var k := LastBar(name, |name|);
    assert forall j :: p < j < |name| ==> name[p + 1..][j - p - 1] == name[j];
  }

  lemma NoBarAfter(name: string)
    ensures NoBar(name[LastBar(name, |name|)..])
  {
  }

  lemma SubAt(t: Table, name: string, i: nat, j: nat)
    requires NamesSplit(t) && NamesSub(t, name, i, j)
    ensures var k := LastBar(name, |name|); k > 0 && Lookup(t, name[..k - 1]) == Top(i)
  {
    hide Lower, Lookup, SubNamed, NoBar, LastBar;
    var p :| 0 <= p < |name| && name[p] == '|' && NamesCommand(t, name[..p], i) && NoBar(name[p + 1..])
             && SubNamed(t.commands[i].subs, name[p + 1..], j);
    LastBarAt(name, p);
    LookupMeans(t, name[..p]);
  }
}
