/**
 When the rule handlers succeed and what they answer (app/service.go, routing/routing.go): exact conditions for
 every set and delete on every coupled store, which failure each violated condition gets, and what pruning,
 parsing and classifying do.
 */
module RuleLaws {
  import opened Bytes
  import opened Routing
  import opened RuleStore

  // ---------------------------------------------------------------------------------------------
  // Setting
  // ---------------------------------------------------------------------------------------------

  /** The request makes sense on its own: identifier, concrete action, target, and an expiry still to come. */
  ghost predicate Sensible(t: Text, q: SetRequest, checkedAt: int) {
    && ValidOperationId(t, q.op) && (q.result == Tunnel || q.result == Direct || q.result == Block)
    && ParseTarget(t, q.target).Some? && (q.expiresAt.Some? ==> q.expiresAt.value > checkedAt)
  }

  /** Some stored rule has the number. */
  ghost predicate Numbered(s: Store, id: nat) {
    exists key :: key in s.table.rules && s.table.rules[key].id == id
  }

  /** The stored rule of the number is the one for the text. */
  ghost predicate NumberedFor(s: Store, id: nat, value: string) {
    exists key :: key in s.table.rules && s.table.rules[key].id == id && key.value == value
  }

  ghost function StoredRevision(s: Store, value: string): nat {
    if value in s.meta then s.meta[value].revision else 0
  }

  /**
   A set under a new operation identifier succeeds exactly when it makes sense, its reference is absent or
   names the rule stored for its target's text, and its expected revision is absent or that text's stored one.
   Each violated condition has its own failure, and no failure changes anything.
   */
  lemma SetsExactly(t: Text, s: Store, q: SetRequest, checkedAt: int, now: int)
    requires Coupled(t, s) && Faithful(t) && SetOp(q.op) !in s.ops
    ensures var (d, r) := Set(t, s, q, checkedAt, now);
      && (!Sensible(t, q, checkedAt) ==> r == Failed(InvalidInput))
      && (Sensible(t, q, checkedAt) ==>
            var value := ParseTarget(t, q.target).value.value;
            match q.ref
            case RuleRef(id) =>
              if !Numbered(s, id) then r == Failed(NotFound)
              else if !NumberedFor(s, id, value) then r == Failed(InvalidInput)
              else if q.expected.Some? && q.expected.value != StoredRevision(s, value) then r == Failed(Conflict)
              else r.Done?
            case NoRef => if q.expected.Some? && q.expected.value != StoredRevision(s, value) then r == Failed(Conflict) else r.Done?
            case _ => r == Failed(NotFound))
      && (r.Failed? ==> d == s)
  {
    hide Coupled, Faithful, ParseTarget, WithoutTarget, ValidOperationId, SetAction, WithId;
    if Sensible(t, q, checkedAt) {
      var x := ParseTarget(t, q.target).value;
      ParsedIsProper(t, q.target);
      ParseStable(t, x);
      if q.ref.RuleRef? {
        NumberIs(t, s, q.ref.id, x.value);
      }
    }
  }

  /** Looking a number up finds the rule that has it. */
  lemma NumberIs(t: Text, s: Store, id: nat, value: string)
    requires Coupled(t, s)
    ensures WithId(s.table.rules, id).Some? <==> Numbered(s, id)
    ensures WithId(s.table.rules, id).Some? ==> (WithId(s.table.rules, id).value.target.value == value <==> NumberedFor(s, id, value))
  {
    hide ParseTarget, StoredKey, Proper;
    if Numbered(s, id) {
      var key :| key in s.table.rules && s.table.rules[key].id == id;
      assert HasId(s.table.rules, key, id);
      WithIdIs(t, s.table, key);
      assert RuleOk(t, s.table, key);
    }
  }

  /** A recorded set that makes sense is answered from the record, and changes nothing. */
  lemma SetRecorded(t: Text, s: Store, q: SetRequest, checkedAt: int, now: int)
    requires SetOp(q.op) in s.ops
    ensures var (d, r) := Set(t, s, q, checkedAt, now);
      d == s && r == if Sensible(t, q, checkedAt) then Done(s.ops[SetOp(q.op)]) else Failed(InvalidInput)
  {
    hide ParseTarget, ValidOperationId, RefFailure, Install;
  }

  /** The answer of a new set that succeeds describes the rule as it now stands. */
  lemma SetAnswers(t: Text, s: Store, q: SetRequest, checkedAt: int, now: int)
    requires Coupled(t, s) && Faithful(t) && CarriedOut(t, s, Setting(q, checkedAt, now))
    ensures var (d, r) := Set(t, s, q, checkedAt, now);
      && ParseTarget(t, q.target).Some?
      && var value := ParseTarget(t, q.target).value.value;
      && value in d.meta && StoredKey(t, value) in d.table.rules
      && var rule := d.table.rules[StoredKey(t, value)];
      && r.response.op == q.op && r.response.generation == d.table.generation
      && r.response.rule == ApiRule(RuleRef(rule.id), value, q.result, d.meta[value].note, q.expiresAt, d.revision)
  {
    hide Coupled, Faithful, RefFailure, ParseTarget, WithoutTarget, ValidOperationId, SetAction;
    var x := ParseTarget(t, q.target).value;
    ParsedIsProper(t, q.target);
    ParseStable(t, x);
    var y := ParseTarget(t, x.value).value;
    SetKeepsOthers(s.table, y, q.result, now);
    RuleTextStays(t, s, y, q.result, now);
  }

  lemma RuleTextStays(t: Text, s: Store, y: Target, action: Action, now: int)
    requires Coupled(t, s)
    ensures SetAction(s.table, y, action, now).1.target.value == y.value && SetAction(s.table, y, action, now).1.action == action
  {
    hide ParseTarget, StoredKey, Proper;
    if KeyOf(y) in s.table.rules {
      assert RuleOk(t, s.table, KeyOf(y));
    }
  }

  // ---------------------------------------------------------------------------------------------
  // Deleting
  // ---------------------------------------------------------------------------------------------

  ghost predicate Tagged(s: Store, tag: string) {
    exists row :: row in s.auto && row.tag == tag
  }

  ghost predicate Listed(s: Store, value: string) {
    exists row :: row in s.auto && row.target == value
  }

  /** What a delete of the rule stored for a text answers. */
  ghost predicate RevisionDecides(s: Store, q: DeleteRequest, value: string, r: Outcome) {
    if q.expected.Some? && q.expected.value != StoredRevision(s, value) then r == Failed(Conflict) else r.Done?
  }

  /**
   A delete under a new operation identifier: by number it needs the rule and, if asked, its revision; by tag
   the automatic row; by target the rule stored for the text, else an automatic row for it. Nothing else succeeds,
   and no failure changes anything.
   */
  lemma DeletesExactly(t: Text, s: Store, q: DeleteRequest)
    requires Coupled(t, s) && Faithful(t) && DeleteOp(q.op) !in s.ops
    ensures var (d, r) := Delete(t, s, q);
      && (r.Failed? ==> d == s)
      && (!ValidOperationId(t, q.op) ==> r == Failed(InvalidInput))
      && (ValidOperationId(t, q.op) ==>
            match q.ref
            case RuleRef(id) =>
              if !Numbered(s, id) then r == Failed(NotFound)
              else exists value :: NumberedFor(s, id, value) && RevisionDecides(s, q, value, r)
            case AutoRef(tag) => if Tagged(s, tag) then r.Done? else r == Failed(NotFound)
            case StrayRef(_) => r == Failed(NotFound)
            case NoRef =>
              var x := ParseTarget(t, q.target);
              if x.None? then r == Failed(InvalidInput)
              else if x.value.value in s.meta then RevisionDecides(s, q, x.value.value, r)
              else if Listed(s, x.value.value) then r.Done?
              else r == Failed(NotFound))
  {
    hide Coupled, Faithful, ParseTarget, WithoutTarget, ValidOperationId, WithId, Resolve, Remove;
    if ValidOperationId(t, q.op) {
      match q.ref {
        case RuleRef(id) =>
          ResolvesItself(t, s, q);
          DeletesNumber(t, s, q, id);
        case AutoRef(tag) =>
          ResolvesItself(t, s, q);
          TagFound(s, tag);
        case StrayRef(_) => ResolvesItself(t, s, q);
        case NoRef =>
          if ParseTarget(t, q.target).Some? {
            DeletesTarget(t, s, q);
          }
      }
    }
  }

  lemma ResolvesItself(t: Text, s: Store, q: DeleteRequest)
    requires q.ref != NoRef
    ensures Resolve(t, s, q, ParseTarget(t, q.target)) == q.ref
  {
    hide ParseTarget;
  }

  /** Looking a tag up finds a row exactly when there is one. */
  lemma TagFound(s: Store, tag: string)
    ensures AutoIndex(s.auto, tag) < |s.auto| <==> Tagged(s, tag)
  {
    var i := AutoIndex(s.auto, tag);
    if i < |s.auto| {
      assert s.auto[i] in s.auto && s.auto[i].tag == tag;
    } else {
      forall row | row in s.auto ensures row.tag != tag {
      }
    }
  }

  /** The rule branch of Delete. */
  lemma DeletesNumber(t: Text, s: Store, q: DeleteRequest, id: nat)
    requires Coupled(t, s) && ValidOperationId(t, q.op) && DeleteOp(q.op) !in s.ops
    requires Resolve(t, s, q, ParseTarget(t, q.target)) == RuleRef(id) && (q.ref == NoRef ==> ParseTarget(t, q.target).Some?)
    ensures var r := Delete(t, s, q).1;
      && (!Numbered(s, id) ==> r == Failed(NotFound))
      && (Numbered(s, id) ==>
            && WithId(s.table.rules, id).Some?
            && var value := WithId(s.table.rules, id).value.target.value;
               NumberedFor(s, id, value) && RevisionDecides(s, q, value, r))
  {
    hide Coupled, ParseTarget, WithoutTarget, ValidOperationId, WithId, Resolve, Remove, MetaOk;
    NumberIs(t, s, id, "");
    if WithId(s.table.rules, id).Some? {
      WithIdStored(t, s, id);
      var value := WithId(s.table.rules, id).value.target.value;
      StoredIsNormal(t, s, value);
      NumberIs(t, s, id, value);
    }
  }

  lemma DeletesTarget(t: Text, s: Store, q: DeleteRequest)
    requires Coupled(t, s) && Faithful(t) && ValidOperationId(t, q.op) && DeleteOp(q.op) !in s.ops
    requires q.ref == NoRef && ParseTarget(t, q.target).Some?
    ensures var r := Delete(t, s, q).1; var value := ParseTarget(t, q.target).value.value;
      if value in s.meta then RevisionDecides(s, q, value, r) else if Listed(s, value) then r.Done? else r == Failed(NotFound)
  {
    hide Coupled, Faithful, ParseTarget, WithoutTarget, ValidOperationId, WithId, Remove, MetaOk;
    var value := ParseTarget(t, q.target).value.value;
    ParsedIsProper(t, q.target);
    ParseStable(t, ParseTarget(t, q.target).value);
    StoredExactly(t, s, value);
    if value in s.meta {
      var id := s.table.rules[StoredKey(t, value)].id;
      ResolvedByTarget(t, s, q);
      assert Numbered(s, id) by { assert s.table.rules[StoredKey(t, value)].id == id; }
      DeletesNumber(t, s, q, id);
    } else {
      FirstListed(s.auto, value);
      if FirstAuto(s.auto, value).Some? {
        TagFound(s, FirstAuto(s.auto, value).value);
      }
    }
  }

  /** A normal text has metadata exactly when the engine has its rule. */
  lemma StoredExactly(t: Text, s: Store, value: string)
    requires Coupled(t, s) && ParseTarget(t, value).Some? && ParseTarget(t, value).value.value == value
    ensures value in s.meta <==> StoredKey(t, value) in s.table.rules
  {
    hide ParseTarget, TableOk;
    if value in s.meta {
      assert MetaOk(t, s, value);
    }
    if StoredKey(t, value) in s.table.rules {
      assert RuleStored(t, s, StoredKey(t, value));
    }
  }

  lemma {:induction false} FirstListed(auto: seq<AutoRow>, value: string)
    ensures FirstAuto(auto, value).Some? <==> exists row :: row in auto && row.target == value
    ensures FirstAuto(auto, value).Some? ==> exists row :: row in auto && row.tag == FirstAuto(auto, value).value
  {
    if auto != [] {
      FirstListed(auto[1..], value);
      assert auto == [auto[0]] + auto[1..];
      assert auto[0] in auto;
    }
  }

  /** Deleting an automatic row takes the first one with the tag and leaves every other row, rule and text. */
  lemma RowGoes(s: Store, q: DeleteRequest, tag: string)
    requires Tagged(s, tag)
    ensures var (d, r) := DeleteAuto(s, q, tag); var i := AutoIndex(s.auto, tag);
      && i < |s.auto| && s.auto[i].tag == tag && (forall k :: 0 <= k < i ==> s.auto[k].tag != tag)
      && d.auto == s.auto[..i] + s.auto[i + 1..] && d.table == s.table && d.meta == s.meta
      && d.revision == s.revision + 1 && r.Done? && r.response.rule.target == s.auto[i].target && r.response.rule.ref == AutoRef(tag)
      && d.ops == s.ops[DeleteOp(q.op) := r.response]
  {
    TagFound(s, tag);
  }

  // ---------------------------------------------------------------------------------------------
  // Pruning
  // ---------------------------------------------------------------------------------------------

  /** Pruning keeps exactly the texts without an expiry or with one still to come, counts what it removed, and takes their automatic rows along. */
  lemma PrunesExactly(t: Text, s: Store, now: int)
    requires Coupled(t, s)
    ensures var d := Prune(t, s, now); var gone := set value | value in s.meta && value !in d.meta;
      && (forall value :: value in d.meta <==> value in s.meta && (s.meta[value].expiresAt.Some? ==> s.meta[value].expiresAt.value > now))
      && (forall value :: value in d.meta ==> d.meta[value] == s.meta[value])
      && d.revision == s.revision + |gone| && d.table.generation == s.table.generation + |gone| && d.ops == s.ops
      && (forall row :: row in d.auto <==> row in s.auto && row.target !in gone)
  {
    hide ParseTarget, StoredKey, TableOk;
    var (d, expired) := (Prune(t, s, now), ExpiredTargets(s, now));
    assert expired == set value | value in s.meta && value !in d.meta;
    RowsLeft(s.auto, expired);
  }

  lemma {:induction false} RowsLeft(auto: seq<AutoRow>, gone: set<string>)
    ensures forall row :: row in WithoutTargets(auto, gone) <==> row in auto && row.target !in gone
  {
    if auto != [] {
      RowsLeft(auto[1..], gone);
      assert auto == [auto[0]] + auto[1..];
    }
  }

  // ---------------------------------------------------------------------------------------------
  // Operation identifiers, targets and classification
  // ---------------------------------------------------------------------------------------------

  /** Letters, digits, hyphen, dot and underscore, by their code points. */
  predicate IdentifierCode(n: int) {
    n in {45, 46, 95} || 48 <= n <= 57 || 65 <= n <= 90 || 97 <= n <= 122
  }

  /** Operation identifiers are, once trimmed, 1 to 128 such characters. */
  lemma OperationIds(t: Text, op: string)
    ensures ValidOperationId(t, op) <==> 1 <= |t.trim(op)| <= 128 && forall i :: 0 <= i < |t.trim(op)| ==> IdentifierCode(t.trim(op)[i] as int)
  {
  }

  ghost predicate Nameable(t: Text, s: string) {
    && s != ""
    && ('/' in s ==> t.parsePrefix(s).Some? && !(Is4In6(t.parsePrefix(s).value.addr) && t.parsePrefix(s).value.bits < 96))
    && ('/' !in s ==> t.parseAddr(s).Some? || t.domain(s).Some?)
  }

  /** Which strings name a target, and of which kind. */
  lemma ParsesExactly(t: Text, input: string)
    ensures var (s, x) := (t.trim(input), ParseTarget(t, input));
      && (x.Some? <==> Nameable(t, s))
      && (x.Some? ==>
            && (x.value.Cidr? <==> '/' in s)
            && (x.value.Ip? <==> '/' !in s && t.parseAddr(s).Some?)
            && (x.value.Domain? ==> t.domain(s) == Some(x.value.value))
            && (x.value.Ip? ==> x.value.addr == Unmap(t.parseAddr(s).value)))
  {
  }

  /** A mapped prefix is refused exactly when it is shorter than the mapping; every other prefix is canonicalized. */
  lemma CanonicalizesExactly(p: Prefix)
    requires p.Valid()
    ensures CanonicalPrefix(p).None? <==> Is4In6(p.addr) && p.bits < 96
    ensures CanonicalPrefix(p).Some? ==> CanonicalPrefix(p).value.bits == if Is4In6(p.addr) then p.bits - 96 else p.bits
  {
  }

  /** Without a manual rule the classifier's answer decides if it is concrete; without a classifier or a concrete answer the default does. */
  lemma ClassifierDecides(e: Table, x: Target, decider: Option<Target -> Action>, default: Action, d: Decision)
    requires Explains(e, x, decider, default, d) && d.matched.None?
    ensures d.action == Auto
    ensures decider.Some? && (decider.value(x) == Tunnel || decider.value(x) == Direct || decider.value(x) == Block) ==>
      d.effective == decider.value(x)
    ensures decider.None? || decider.value(x) == Auto || decider.value(x).Unrecognized? ==> d.effective == default
  {
  }

  /** An update is dated, and only an update is. */
  lemma UpdatesAreDated(e: Table, x: Target, action: Action, now: int)
    requires KeyOf(x) in e.rules
    ensures var rule := SetAction(e, x, action, now).1;
      rule.updatedAt == if e.rules[KeyOf(x)].action == action then e.rules[KeyOf(x)].updatedAt else now
  {
  }
}
