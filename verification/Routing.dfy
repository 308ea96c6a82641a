/**
 Routing targets and the manual rule engine (routing/routing.go).

 Addresses are bit strings of 32 or 128 bits. The textual forms of net/netip and the domain
 normalizer are the fields of `Text`, held to the laws in `Faithful`; a rule is keyed by the kind and
 the text of its target, because one text can name a domain in one spelling and an address in another.
 */
module Routing {
  import opened Bytes

  // ---------------------------------------------------------------------------------------------
  // Addresses and prefixes
  // ---------------------------------------------------------------------------------------------

  type Addr = a: seq<bool> | |a| == 32 || |a| == 128 witness seq(32, _ => false)

  datatype Prefix = Prefix(addr: Addr, bits: nat) {
    predicate Valid() {
      bits <= |addr|
    }
  }

  /** An IPv4 address written as an IPv6 one: eighty zeros and sixteen ones in front. */
  predicate Is4In6(a: Addr) {
    |a| == 128 && a[..80] == seq(80, _ => false) && a[80..96] == seq(16, _ => true)
  }

  function Unmap(a: Addr): Addr {
    if Is4In6(a) then a[96..] else a
  }

  function Map(a: Addr): (m: Addr)
    requires |a| == 32
  {
    seq(80, _ => false) + seq(16, _ => true) + a
  }

  /** Same family, and equal in the leading bits. */
  predicate Contains(p: Prefix, a: Addr)
    requires p.Valid()
  {
    |a| == |p.addr| && a[..p.bits] == p.addr[..p.bits]
  }

  function Masked(p: Prefix): (q: Prefix)
    requires p.Valid()
    ensures q.Valid()
  {
    Prefix(p.addr[..p.bits] + seq(|p.addr| - p.bits, _ => false), p.bits)
  }

  function CanonicalPrefix(p: Prefix): (q: Option<Prefix>)
    requires p.Valid()
    ensures q.Some? ==> q.value.Valid()
  {
    if Is4In6(p.addr) then
      if p.bits < 96 then None else Some(Masked(Prefix(Unmap(p.addr), p.bits - 96)))
    else Some(Masked(p))
  }

  predicate Canonical(p: Prefix) {
    p.Valid() && CanonicalPrefix(p) == Some(p)
  }

  lemma MaskedContains(p: Prefix, a: Addr)
    requires p.Valid()
    ensures Contains(Masked(p), a) <==> Contains(p, a)
  {
    assert Masked(p).addr[..p.bits] == p.addr[..p.bits];
  }

  lemma MaskedTwice(p: Prefix)
    requires p.Valid()
    ensures Masked(Masked(p)) == Masked(p)
  {
    assert Masked(p).addr[..p.bits] == p.addr[..p.bits];
  }

  /** Masking never turns an ordinary address into a mapped one. */
  lemma MaskedUnmapped(p: Prefix)
    requires p.Valid() && !Is4In6(p.addr)
    ensures !Is4In6(Masked(p).addr)
  {
    var q := Masked(p);
    if |p.addr| == 128 && p.bits < 96 {
      assert !q.addr[95] && q.addr[80..96][15] == q.addr[95];
    } else if |p.addr| == 128 {
      assert q.addr[..80] == p.addr[..80] && q.addr[80..96] == p.addr[80..96];
    }
  }

  /** Canonicalizing is idempotent, and its result is masked and never mapped. */
  lemma CanonicalIsFixed(p: Prefix)
    requires p.Valid() && CanonicalPrefix(p).Some?
    ensures Canonical(CanonicalPrefix(p).value)
  {
    var r := if Is4In6(p.addr) then Prefix(Unmap(p.addr), p.bits - 96) else p;
    MaskedTwice(r);
    MaskedUnmapped(r);
  }

  lemma UnmapMap(a: Addr)
    requires Is4In6(a)
    ensures Map(Unmap(a)) == a
  {
    assert a == a[..80] + a[80..96] + a[96..];
  }

  /**
   Canonicalizing keeps exactly the addresses: an ordinary prefix contains what it contained, and a
   mapped one contains the IPv4 addresses whose mapped forms it contained, having contained nothing else.
   */
  lemma CanonicalContains(p: Prefix, a: Addr)
    requires p.Valid() && CanonicalPrefix(p).Some?
    ensures !Is4In6(p.addr) ==> (Contains(CanonicalPrefix(p).value, a) <==> Contains(p, a))
    ensures Is4In6(p.addr) && |a| == 32 ==> (Contains(CanonicalPrefix(p).value, a) <==> Contains(p, Map(a)))
    ensures Is4In6(p.addr) ==> (Contains(p, a) ==> Is4In6(a))
    ensures Is4In6(p.addr) && |a| == 128 ==> !Contains(CanonicalPrefix(p).value, a)
  {
    if Is4In6(p.addr) {
      var r := Prefix(Unmap(p.addr), p.bits - 96);
      MaskedContains(r, a);
      if Contains(p, a) {
        assert a[..96] == a[..p.bits][..96] && p.addr[..96] == p.addr[..p.bits][..96];
        assert a[..80] == a[..96][..80] && a[80..96] == a[..96][80..];
        assert p.addr[..80] == p.addr[..96][..80] && p.addr[80..96] == p.addr[..96][80..];
      }
      if |a| == 32 {
        MappedContains(p, a);
      }
    } else {
      MaskedContains(p, a);
    }
  }

  lemma MappedContains(p: Prefix, a: Addr)
    requires p.Valid() && Is4In6(p.addr) && p.bits >= 96 && |a| == 32
    ensures Contains(p, Map(a)) <==> Contains(Prefix(Unmap(p.addr), p.bits - 96), a)
  {
    UnmapMap(p.addr);
    var head: seq<bool> := seq(80, _ => false) + seq(16, _ => true);
    assert |head| == 96;
    var (m, n, k) := (Map(a), p.addr, p.bits - 96);
    assert m == head + a && n == head + Unmap(n);
    assert m[..p.bits] == head + a[..k] && n[..p.bits] == head + Unmap(n)[..k];
    if m[..p.bits] == n[..p.bits] {
      assert a[..k] == m[..p.bits][96..] && Unmap(n)[..k] == n[..p.bits][96..];
    }
  }

  /** Of two canonical prefixes of one length, at most one contains an address. */
  lemma SameLengthSamePrefix(p: Prefix, q: Prefix, a: Addr)
    requires Canonical(p) && Canonical(q) && p.bits == q.bits && Contains(p, a) && Contains(q, a)
    ensures p == q
  {
    assert !Is4In6(p.addr) && !Is4In6(q.addr) by { NotMapped(p); NotMapped(q); }
    assert p == Masked(p) && q == Masked(q);
  }

  lemma NotMapped(p: Prefix)
    requires Canonical(p)
    ensures !Is4In6(p.addr)
  {
  }

  // ---------------------------------------------------------------------------------------------
  // Targets
  // ---------------------------------------------------------------------------------------------

  type NetPrefix = p: Prefix | p.Valid() witness Prefix(seq(32, _ => false), 0)

  /** The string functions around addresses: trimming, net/netip, and the domain normalizer. */
  datatype Text = Text(
    trim: string -> string,
    parsePrefix: string -> Option<NetPrefix>,
    parseAddr: string -> Option<Addr>,
    domain: string -> Option<string>,
    prefixText: NetPrefix -> string,
    addrText: Addr -> string)

  ghost predicate Plain(t: Text, s: string) {
    s != "" && t.trim(s) == s && '/' !in s
  }

  /** Printed forms parse back; a normalized domain is normal, and if it reads as an address it is that address's text. */
  ghost predicate Faithful(t: Text) {
    && (forall p: NetPrefix :: Canonical(p) ==>
          var s := t.prefixText(p); s != "" && t.trim(s) == s && '/' in s && t.parsePrefix(s) == Some(p))
    && (forall a: Addr :: !Is4In6(a) ==> Plain(t, t.addrText(a)) && t.parseAddr(t.addrText(a)) == Some(a))
    && (forall s: string :: t.domain(s).Some? ==>
          var d := t.domain(s).value; Plain(t, d) && t.domain(d) == Some(d) && (t.parseAddr(d).Some? ==> t.addrText(Unmap(t.parseAddr(d).value)) == d))
  }

  datatype Kind = DomainKind | IpKind | CidrKind

  datatype Target = Domain(value: string) | Ip(value: string, addr: Addr) | Cidr(value: string, prefix: NetPrefix) {
    function Kind(): Kind {
      match this
      case Domain(_) => DomainKind
      case Ip(_, _) => IpKind
      case Cidr(_, _) => CidrKind
    }
  }

  function ParseTarget(t: Text, input: string): Option<Target> {
    var s := t.trim(input);
    if s == "" then None
    else if '/' in s then
      var p := t.parsePrefix(s);
      if p.None? then None
      else
        var q := CanonicalPrefix(p.value);
        if q.None? then None else Some(Cidr(t.prefixText(q.value), q.value))
    else if t.parseAddr(s).Some? then
      var a := Unmap(t.parseAddr(s).value);
      Some(Ip(t.addrText(a), a))
    else
      var d := t.domain(s);
      if d.None? then None else Some(Domain(d.value))
  }

  /** A target that parsing can produce. */
  ghost predicate Proper(t: Text, x: Target) {
    match x
    case Domain(d) => t.domain(d) == Some(d)
    case Ip(v, a) => !Is4In6(a) && v == t.addrText(a)
    case Cidr(v, p) => Canonical(p) && v == t.prefixText(p)
  }

  lemma UnmapTwice(a: Addr)
    ensures !Is4In6(Unmap(a))
  {
  }

  lemma ParsedIsProper(t: Text, input: string)
    requires Faithful(t) && ParseTarget(t, input).Some?
    ensures Proper(t, ParseTarget(t, input).value)
  {
    var s := t.trim(input);
    if '/' in s {
      CanonicalIsFixed(t.parsePrefix(s).value);
    } else if t.parseAddr(s).Some? {
      UnmapTwice(t.parseAddr(s).value);
    }
  }

  /**
   The text of a target parses again, to the same text. It parses to the very same target exactly
   when the target is not a domain that reads as an address.
   */
  lemma ParseStable(t: Text, x: Target)
    requires Faithful(t) && Proper(t, x)
    ensures ParseTarget(t, x.value).Some? && ParseTarget(t, x.value).value.value == x.value
    ensures ParseTarget(t, x.value) == Some(x) <==> !(x.Domain? && t.parseAddr(x.value).Some?)
    ensures ParseTarget(t, ParseTarget(t, x.value).value.value) == ParseTarget(t, x.value)
  {
    match x
    case Domain(d) =>
      assert Plain(t, d);
      if t.parseAddr(d).Some? {
        UnmapTwice(t.parseAddr(d).value);
      }
    case Ip(v, a) => assert Plain(t, v);
    case Cidr(v, p) =>
  }

  // A text that obeys the laws: addresses as strings of '0' and '1', prefix lengths in unary, and domains
  // that lose one trailing dot.

  function BitText(a: Addr): string {
    seq(|a|, i requires 0 <= i < |a| => if a[i] then '1' else '0')
  }

  predicate IsBitText(s: string) {
    (|s| == 32 || |s| == 128) && forall i :: 0 <= i < |s| ==> s[i] == '0' || s[i] == '1'
  }

  function TextBits(s: string): seq<bool> {
    seq(|s|, i requires 0 <= i < |s| => s[i] == '1')
  }

  function ParseBits(s: string): Option<Addr> {
    if IsBitText(s) then Some(TextBits(s)) else None
  }

  function PrefixBits(p: NetPrefix): string {
    BitText(p.addr) + "/" + seq(p.bits, _ => 'x')
  }

  function ParsePrefixAt(s: string, n: nat): Option<NetPrefix>
    requires n == 32 || n == 128
  {
    if n < |s| <= n + 1 + n && s[n] == '/' && IsBitText(s[..n]) then Some(Prefix(TextBits(s[..n]), |s| - n - 1)) else None
  }

  function ParsePrefixBits(s: string): Option<NetPrefix> {
    var p := ParsePrefixAt(s, 32);
    if p.Some? then p else ParsePrefixAt(s, 128)
  }

  function UndottedDomain(s: string): Option<string> {
    var d := if s != "" && s[|s| - 1] == '.' then s[..|s| - 1] else s;
    if d == "" || |d| == 128 || '/' in d || d[|d| - 1] == '.' then None else Some(d)
  }

  const BIT_TEXT: Text := Text(s => s, ParsePrefixBits, ParseBits, UndottedDomain, PrefixBits, BitText)

  lemma BitsRoundTrip(a: Addr)
    ensures ParseBits(BitText(a)) == Some(a) && '/' !in BitText(a) && '.' !in BitText(a) && BitText(a) != ""
  {
    assert TextBits(BitText(a)) == a;
  }

  lemma PrefixRoundTrip(p: NetPrefix)
    ensures ParsePrefixBits(PrefixBits(p)) == Some(p) && '/' in PrefixBits(p) && PrefixBits(p) != ""
  {
    var (s, n) := (PrefixBits(p), |p.addr|);
    BitsRoundTrip(p.addr);
    assert s[..n] == BitText(p.addr) && s[n] == '/' && |s| == n + 1 + p.bits;
    assert TextBits(s[..n]) == p.addr;
    if n == 128 {
      assert s[32] == BitText(p.addr)[32];
    }
  }

  lemma BitTextIsFaithful()
    ensures Faithful(BIT_TEXT)
  {
    var t := BIT_TEXT;
    forall p: NetPrefix | Canonical(p)
      ensures var s := t.prefixText(p); s != "" && t.trim(s) == s && '/' in s && t.parsePrefix(s) == Some(p)
    {
      PrefixRoundTrip(p);
    }
    forall a: Addr | !Is4In6(a) ensures Plain(t, t.addrText(a)) && t.parseAddr(t.addrText(a)) == Some(a) {
      BitsRoundTrip(a);
    }
    forall s: string | t.domain(s).Some?
      ensures var d := t.domain(s).value; Plain(t, d) && t.domain(d) == Some(d) && (t.parseAddr(d).Some? ==> t.addrText(Unmap(t.parseAddr(d).value)) == d)
    {
      UndottedIsNormal(s);
    }
  }

  ghost predicate DomainLaw(s: string)
    requires UndottedDomain(s).Some?
  {
    var d := UndottedDomain(s).value;
    && Plain(BIT_TEXT, d) && UndottedDomain(d) == Some(d)
    && (ParseBits(d).Some? ==> BitText(Unmap(ParseBits(d).value)) == d)
  }

  lemma UndottedIsNormal(s: string)
    requires UndottedDomain(s).Some?
    ensures DomainLaw(s)
  {
    var d := UndottedDomain(s).value;
    if IsBitText(d) {
      var a: Addr := TextBits(d);
      assert BitText(a) == d;
    }
  }

  // ---------------------------------------------------------------------------------------------
  // The rule table
  // ---------------------------------------------------------------------------------------------

  datatype Action = Tunnel | Direct | Block | Auto | Unrecognized(name: string) {
    predicate Effective() {
      this == Tunnel || this == Direct || this == Block
    }
  }

  datatype RuleKey = RuleKey(kind: Kind, value: string)

  datatype Rule = Rule(id: nat, target: Target, action: Action, createdAt: int, updatedAt: int)

  datatype Table = Table(rules: map<RuleKey, Rule>, nextId: nat, generation: nat)

  function KeyOf(x: Target): RuleKey {
    RuleKey(x.Kind(), x.value)
  }

  function SetAction(e: Table, x: Target, action: Action, now: int): (Table, Rule) {
    var key := KeyOf(x);
    if key in e.rules then
      if e.rules[key].action == action then (e, e.rules[key])
      else
        var rule := e.rules[key].(action := action, updatedAt := now);
        (e.(rules := e.rules[key := rule], generation := e.generation + 1), rule)
    else
      var rule := Rule(e.nextId + 1, x, action, now, now);
      (Table(e.rules[key := rule], e.nextId + 1, e.generation + 1), rule)
  }

  function Remove(e: Table, x: Target): Table {
    if KeyOf(x) in e.rules then e.(rules := e.rules - {KeyOf(x)}, generation := e.generation + 1) else e
  }

  /** What the rules say: which target gets which action. */
  function Policy(e: Table): map<RuleKey, Action> {
    map key | key in e.rules :: e.rules[key].action
  }

  /** Rules sit under their own keys, are proper and concrete, and have identifiers of their own. */
  ghost predicate TableOk(t: Text, e: Table) {
    && (forall key :: key in e.rules ==> RuleOk(t, e, key))
    && (forall j, k :: j in e.rules && k in e.rules && e.rules[j].id == e.rules[k].id ==> j == k)
  }

  ghost predicate RuleOk(t: Text, e: Table, key: RuleKey)
    requires key in e.rules
  {
    var r := e.rules[key];
    KeyOf(r.target) == key && Proper(t, r.target) && r.action.Effective() && 0 < r.id <= e.nextId
  }

  lemma SetKeeps(t: Text, e: Table, x: Target, action: Action, now: int)
    requires TableOk(t, e) && Proper(t, x) && action.Effective()
    ensures TableOk(t, SetAction(e, x, action, now).0)
  {
    var key := KeyOf(x);
    hide Proper;
    if key in e.rules {
      assert RuleOk(t, e, key);
      ReplaceKeeps(t, e, key, e.rules[key].(action := action, updatedAt := now), e.nextId, e.generation + 1);
    } else {
      ReplaceKeeps(t, e, key, Rule(e.nextId + 1, x, action, now, now), e.nextId + 1, e.generation + 1);
    }
  }

  /** One rule is put under its key, with the identifier it had there or a new one. */
  lemma ReplaceKeeps(t: Text, e: Table, key: RuleKey, rule: Rule, nextId: nat, generation: nat)
    requires TableOk(t, e) && KeyOf(rule.target) == key && Proper(t, rule.target) && rule.action.Effective()
    requires e.nextId <= nextId && 0 < rule.id <= nextId && (if key in e.rules then rule.id == e.rules[key].id else rule.id > e.nextId)
    ensures TableOk(t, Table(e.rules[key := rule], nextId, generation))
  {
    hide KeyOf, Proper;
    var f := Table(e.rules[key := rule], nextId, generation);
    forall k | k in f.rules ensures RuleOk(t, f, k) {
      assert k != key ==> RuleOk(t, e, k);
    }
    forall k | k in e.rules ensures e.rules[k].id <= e.nextId {
      assert RuleOk(t, e, k);
    }
  }

  lemma RemoveKeeps(t: Text, e: Table, x: Target)
    requires TableOk(t, e)
    ensures TableOk(t, Remove(e, x))
  {
    var f := Remove(e, x);
    forall key | key in f.rules ensures RuleOk(t, f, key) {
      assert RuleOk(t, e, key);
    }
  }

  /** The generation moves, by one, exactly when the policy changes. */
  lemma SetGeneration(e: Table, x: Target, action: Action, now: int)
    ensures var f := SetAction(e, x, action, now).0;
      && Policy(f) == Policy(e)[KeyOf(x) := action]
      && (Policy(f) == Policy(e) <==> f.generation == e.generation)
      && e.generation <= f.generation <= e.generation + 1
      && (f.generation == e.generation ==> f == e)
  {
    var f := SetAction(e, x, action, now).0;
    assert KeyOf(x) in Policy(f) && Policy(f)[KeyOf(x)] == action;
    assert Policy(f) == Policy(e)[KeyOf(x) := action];
  }

  /** Replacing an action keeps the rule's identity; no other rule is touched. */
  lemma SetKeepsOthers(e: Table, x: Target, action: Action, now: int)
    ensures var (f, rule) := SetAction(e, x, action, now);
      && KeyOf(x) in f.rules && f.rules[KeyOf(x)] == rule && rule.action == action
      && (forall key :: key != KeyOf(x) ==> (key in f.rules <==> key in e.rules) && (key in e.rules ==> f.rules[key] == e.rules[key]))
      && (if KeyOf(x) in e.rules
          then var was := e.rules[KeyOf(x)]; rule.id == was.id && rule.target == was.target && rule.createdAt == was.createdAt
          else rule.id == f.nextId > e.nextId && rule.target == x && rule.createdAt == rule.updatedAt == now)
  {
  }

  lemma RemoveGeneration(e: Table, x: Target)
    ensures var f := Remove(e, x);
      && Policy(f) == Policy(e) - {KeyOf(x)}
      && (Policy(f) == Policy(e) <==> f.generation == e.generation)
      && e.generation <= f.generation <= e.generation + 1
  {
    var f := Remove(e, x);
    assert Policy(f) == Policy(e) - {KeyOf(x)};
    assert KeyOf(x) in e.rules ==> KeyOf(x) in Policy(e) && KeyOf(x) !in Policy(f);
  }

  ghost predicate Edits(e: Table, f: Table) {
    (exists x, action, now :: f == SetAction(e, x, action, now).0) || (exists x :: f == Remove(e, x))
  }

  /** Over any run of edits, one generation is one policy. */
  lemma {:induction false} GenerationNamesPolicy(run: seq<Table>, i: nat, j: nat)
    requires i <= j < |run| && forall k :: 0 < k < |run| ==> Edits(run[k - 1], run[k])
    ensures run[i].generation <= run[j].generation
    ensures run[i].generation == run[j].generation ==> Policy(run[i]) == Policy(run[j])
  {
    hide Policy, SetAction, Remove;
    if i < j {
      GenerationNamesPolicy(run, i, j - 1);
      EditGeneration(run[j - 1], run[j]);
    }
  }

  lemma EditGeneration(e: Table, f: Table)
    requires Edits(e, f)
    ensures e.generation <= f.generation
    ensures Policy(f) == Policy(e) <==> f.generation == e.generation
  {
    hide Policy, SetAction, Remove;
    if x, action, now :| f == SetAction(e, x, action, now).0 {
      SetGeneration(e, x, action, now);
    } else {
      var x :| f == Remove(e, x);
      RemoveGeneration(e, x);
    }
  }

  // ---------------------------------------------------------------------------------------------
  // Matching
  // ---------------------------------------------------------------------------------------------

  ghost predicate Covers(rules: map<RuleKey, Rule>, key: RuleKey, a: Addr) {
    key in rules && rules[key].target.Cidr? && Contains(rules[key].target.prefix, a)
  }

  /** An exact rule; else, for an address, the one longest prefix that contains it. */
  ghost predicate IsMatch(rules: map<RuleKey, Rule>, x: Target, r: Option<Rule>) {
    if KeyOf(x) in rules then r == Some(rules[KeyOf(x)])
    else if !x.Ip? then r == None
    else if r.None? then forall key :: !Covers(rules, key, x.addr)
    else exists best :: Covers(rules, best, x.addr) && rules[best] == r.value && Longest(rules, best, x.addr)
  }

  ghost predicate Longest(rules: map<RuleKey, Rule>, best: RuleKey, a: Addr)
    requires Covers(rules, best, a)
  {
    forall key :: Covers(rules, key, a) && key != best ==> rules[key].target.prefix.bits < rules[best].target.prefix.bits
  }

  /** Nothing is left to the order in which the rules are visited. */
  lemma MatchDetermined(rules: map<RuleKey, Rule>, x: Target, q: Option<Rule>, r: Option<Rule>)
    requires IsMatch(rules, x, q) && IsMatch(rules, x, r)
    ensures q == r
  {
  }

  /** Rules of equal length that contain one address are the same rule. */
  lemma NoTies(t: Text, e: Table, j: RuleKey, k: RuleKey, a: Addr)
    requires TableOk(t, e) && Covers(e.rules, j, a) && Covers(e.rules, k, a)
    requires e.rules[j].target.prefix.bits == e.rules[k].target.prefix.bits
    ensures j == k
  {
    assert RuleOk(t, e, j) && RuleOk(t, e, k);
    SameLengthSamePrefix(e.rules[j].target.prefix, e.rules[k].target.prefix, a);
  }

  datatype Decision = Decision(target: Target, action: Action, effective: Action, matched: Option<Rule>, generation: nat)

  /** With no manual rule the classifier decides, and the default stands in for an answer that is not concrete. */
  function Classified(x: Target, decider: Option<Target -> Action>, default: Action): Action {
    if decider.Some? && decider.value(x).Effective() then decider.value(x) else default
  }

  ghost predicate Explains(e: Table, x: Target, decider: Option<Target -> Action>, default: Action, d: Decision) {
    && d.target == x && d.generation == e.generation && IsMatch(e.rules, x, d.matched)
    && (d.matched.Some? ==> d.action == d.effective == d.matched.value.action)
    && (d.matched.None? ==> d.action == Auto && d.effective == Classified(x, decider, default))
  }

  /** The explanation is determined, and its effective action is always concrete. */
  lemma ExplanationDetermined(t: Text, e: Table, x: Target, decider: Option<Target -> Action>, default: Action, d: Decision, f: Decision)
    requires TableOk(t, e) && default.Effective()
    requires Explains(e, x, decider, default, d) && Explains(e, x, decider, default, f)
    ensures d == f && d.effective.Effective()
  {
    MatchDetermined(e.rules, x, d.matched, f.matched);
    if d.matched.Some? {
      var key :| key in e.rules && e.rules[key] == d.matched.value;
      assert RuleOk(t, e, key);
    }
  }

  class Engine {
    const text: Text
    const decider: Option<Target -> Action>
    const default: Action
    var table: Table

    constructor (text: Text, decider: Option<Target -> Action>, default: Action)
      requires Faithful(text) && default.Effective()
      ensures Valid() && table == Table(map[], 0, 0) && this.text == text && this.decider == decider && this.default == default
    {
      this.text, this.decider, this.default, table := text, decider, default, Table(map[], 0, 0);
    }

    ghost predicate Valid()
      reads this
    {
      Faithful(text) && TableOk(text, table) && default.Effective()
    }

    method SetRule(value: string, action: Action, now: int) returns (r: Option<Rule>)
      requires Valid()
      modifies this`table
      ensures Valid()
      ensures r.Some? <==> action.Effective() && ParseTarget(text, value).Some?
      ensures r.None? ==> table == old(table)
      ensures r.Some? ==> (table, r.value) == SetAction(old(table), ParseTarget(text, value).value, action, now)
    {
      hide Faithful, TableOk;
      if !action.Effective() {
        return None;
      }
      var target := ParseTarget(text, value);
      if target.None? {
        return None;
      }
      ParsedIsProper(text, value);
      SetKeeps(text, table, target.value, action, now);
      var key := KeyOf(target.value);
      if key in table.rules {
        var existing := table.rules[key];
        if existing.action == action {
          return Some(existing);
        }
        existing := existing.(action := action, updatedAt := now);
        table := table.(rules := table.rules[key := existing], generation := table.generation + 1);
        return Some(existing);
      }
      table := table.(nextId := table.nextId + 1);
      var rule := Rule(table.nextId, target.value, action, now, now);
      table := table.(rules := table.rules[key := rule], generation := table.generation + 1);
      r := Some(rule);
    }

    /** The decision returned is about the target's text, parsed again. */
    method DeleteRule(value: string) returns (r: Option<Decision>)
      requires Valid()
      modifies this`table
      ensures Valid()
      ensures r.Some? <==> ParseTarget(text, value).Some?
      ensures table == if r.Some? then Remove(old(table), ParseTarget(text, value).value) else old(table)
      ensures r.Some? ==> var again := ParseTarget(text, ParseTarget(text, value).value.value);
        again.Some? && Explains(table, again.value, decider, default, r.value)
    {
      hide Faithful, TableOk, Explains;
      var target := ParseTarget(text, value);
      if target.None? {
        return None;
      }
      ParsedIsProper(text, value);
      ParseStable(text, target.value);
      RemoveKeeps(text, table, target.value);
      var key := KeyOf(target.value);
      if key in table.rules {
        table := table.(rules := table.rules - {key}, generation := table.generation + 1);
      }
      r := Explain(target.value.value);
    }

    method Explain(value: string) returns (r: Option<Decision>)
      requires Valid()
      ensures r.Some? <==> ParseTarget(text, value).Some?
      ensures r.Some? ==> Explains(table, ParseTarget(text, value).value, decider, default, r.value)
    {
      hide Faithful, TableOk, IsMatch, ParseTarget;
      var target := ParseTarget(text, value);
      if target.None? {
        return None;
      }
      var x := target.value;
      var rule := MatchLocked(x);
      if rule.Some? {
        return Some(Decision(x, rule.value.action, rule.value.action, rule, table.generation));
      }
      var action := default;
      if decider.Some? {
        var classified := decider.value(x);
        if classified.Effective() {
          action := classified;
        }
      }
      r := Some(Decision(x, Auto, action, None, table.generation));
    }

    /** Visits the rules in an arbitrary order. */
    method MatchLocked(x: Target) returns (r: Option<Rule>)
      requires Valid()
      ensures IsMatch(table.rules, x, r)
    {
      hide Faithful, TableOk;
      if KeyOf(x) in table.rules {
        return Some(table.rules[KeyOf(x)]);
      }
      if !x.Ip? {
        return None;
      }
      var (rules, remaining) := (table.rules, table.rules.Keys);
      var best: Option<RuleKey> := None;
      var bestBits: int := -1;
      while remaining != {}
        invariant remaining <= rules.Keys
        invariant bestBits >= 0 <==> best.Some?
        invariant best.Some? ==> Covers(rules, best.value, x.addr) && rules[best.value].target.prefix.bits == bestBits
        invariant forall key :: Covers(rules, key, x.addr) && key !in remaining ==> rules[key].target.prefix.bits <= bestBits
        decreases remaining
      {
        var key :| key in remaining;
        remaining := remaining - {key};
        var rule := rules[key];
        if rule.target.Cidr? && Contains(rule.target.prefix, x.addr) {
          if rule.target.prefix.bits > bestBits {
            best, bestBits := Some(key), rule.target.prefix.bits;
          }
        }
      }
      if best.None? {
        return None;
      }
      forall key | Covers(rules, key, x.addr) && key != best.value ensures rules[key].target.prefix.bits < bestBits {
        if rules[key].target.prefix.bits == bestBits {
          NoTies(text, table, key, best.value, x.addr);
        }
      }
      r := Some(rules[best.value]);
    }
  }
}
