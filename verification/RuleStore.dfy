/**
 The service's expiring manual rules (app/service.go): metadata, operation records and recent
 automatic decisions beside the routing engine.

 Each lock-protected region is one function on `Store`; pruning is a region of its own, run before
 every call. A request's rule reference is the parsed form of its identifier string.
 */
module RuleStore {
  import opened Bytes
  import opened Routing

  datatype Meta = Meta(note: string, expiresAt: Option<int>, revision: nat)

  /** "rule-" with a number, "auto-" with a tag, nothing, or a string that names neither. */
  datatype Ref = NoRef | RuleRef(id: nat) | AutoRef(tag: string) | StrayRef(text: string)

  datatype AutoRow = AutoRow(tag: string, target: string)

  datatype OpKey = SetOp(id: string) | DeleteOp(id: string)

  datatype ApiRule = ApiRule(ref: Ref, target: string, result: Action, note: string, expiresAt: Option<int>, revision: nat)

  datatype Response = Response(op: string, rule: ApiRule, generation: nat)

  datatype Failure = InvalidInput | NotFound | Conflict

  datatype Outcome = Done(response: Response) | Failed(failure: Failure)

  datatype Store = Store(
    table: Table, meta: map<string, Meta>, auto: seq<AutoRow>, ops: map<OpKey, Response>, revision: nat)

  datatype SetRequest = SetRequest(
    op: string, target: string, result: Action, note: string, expiresAt: Option<int>, ref: Ref, expected: Option<nat>)

  datatype DeleteRequest = DeleteRequest(op: string, target: string, ref: Ref, expected: Option<nat>)

  // ---------------------------------------------------------------------------------------------
  // The lock-protected regions
  // ---------------------------------------------------------------------------------------------

  predicate OperationIdChar(c: char) {
    c == '-' || c == '_' || c == '.' || '0' <= c <= '9' || 'A' <= c <= 'Z' || 'a' <= c <= 'z'
  }

  predicate ValidOperationId(t: Text, op: string) {
    var s := t.trim(op);
    0 < |s| <= 128 && forall i :: 0 <= i < |s| ==> OperationIdChar(s[i])
  }

  predicate Expired(m: Meta, now: int) {
    m.expiresAt.Some? && m.expiresAt.value <= now
  }

  function WithoutTarget(auto: seq<AutoRow>, target: string): seq<AutoRow> {
    if auto == [] then []
    else (if auto[0].target != target then [auto[0]] else []) + WithoutTarget(auto[1..], target)
  }

  /** The engine's key for a stored target text. */
  function StoredKey(t: Text, value: string): RuleKey {
    var x := ParseTarget(t, value);
    if x.Some? then KeyOf(x.value) else RuleKey(DomainKind, value)
  }

  /** One expired target: its rule, its metadata and its automatic rows go; the revision moves. */
  function PruneOne(t: Text, s: Store, value: string): Store {
    var x := ParseTarget(t, value);
    Store(if x.Some? then Remove(s.table, x.value) else s.table,
          s.meta - {value}, WithoutTarget(s.auto, value), s.ops,
          if x.Some? then s.revision + 1 else s.revision)
  }

  function RevisionOf(s: Store, value: string): nat {
    if value in s.meta then s.meta[value].revision else 0
  }

  ghost predicate HasId(rules: map<RuleKey, Rule>, key: RuleKey, id: nat) {
    key in rules && rules[key].id == id
  }

  /** The rule with an identifier; identifiers are unique. */
  ghost function WithId(rules: map<RuleKey, Rule>, id: nat): Option<Rule> {
    if exists key :: HasId(rules, key, id) then var key :| HasId(rules, key, id); Some(rules[key]) else None
  }

  /** The identifier check of an edit: none asked for, or a rule of that number for that very target. */
  ghost function RefFailure(s: Store, ref: Ref, value: string): Option<Failure> {
    match ref
    case NoRef => None
    case RuleRef(id) =>
      var r := WithId(s.table.rules, id);
      if r.None? then Some(NotFound) else if r.value.target.value != value then Some(InvalidInput) else None
    case _ => Some(NotFound)
  }

  /** What setting does once nothing stands in its way. */
  function Install(t: Text, s: Store, q: SetRequest, value: string, now: int): (Store, Outcome) {
    var again := ParseTarget(t, value);
    if again.None? || !q.result.Effective() then (s, Failed(InvalidInput))
    else
      var (table, rule) := SetAction(s.table, again.value, q.result, now);
      var meta := Meta(t.trim(q.note), q.expiresAt, s.revision + 1);
      var response := Response(q.op, ApiRule(RuleRef(rule.id), rule.target.value, rule.action, meta.note, meta.expiresAt, meta.revision), table.generation);
      (Store(table, s.meta[value := meta], WithoutTarget(s.auto, value), s.ops[SetOp(q.op) := response], s.revision + 1), Done(response))
  }

  /** SetRule after its pruning; `checkedAt` is the clock when the expiry was checked. */
  ghost function Set(t: Text, s: Store, q: SetRequest, checkedAt: int, now: int): (Store, Outcome) {
    var x := ParseTarget(t, q.target);
    if !ValidOperationId(t, q.op) || !q.result.Effective() || x.None? then (s, Failed(InvalidInput))
    else if q.expiresAt.Some? && q.expiresAt.value <= checkedAt then (s, Failed(InvalidInput))
    else if SetOp(q.op) in s.ops then (s, Done(s.ops[SetOp(q.op)]))
    else
      var value := x.value.value;
      if RefFailure(s, q.ref, value).Some? then (s, Failed(RefFailure(s, q.ref, value).value))
      else if q.expected.Some? && RevisionOf(s, value) != q.expected.value then (s, Failed(Conflict))
      else Install(t, s, q, value, now)
  }

  function FirstAuto(auto: seq<AutoRow>, target: string): Option<string> {
    if auto == [] then None else if auto[0].target == target then Some(auto[0].tag) else FirstAuto(auto[1..], target)
  }

  function AutoIndex(auto: seq<AutoRow>, tag: string): (i: nat)
    ensures i <= |auto|
    ensures i < |auto| ==> auto[i].tag == tag
    ensures forall k :: 0 <= k < i ==> auto[k].tag != tag
  {
    if auto == [] || auto[0].tag == tag then 0 else 1 + AutoIndex(auto[1..], tag)
  }

  /** What a delete request refers to: its own reference, or the rule or automatic row of its target. */
  function Resolve(t: Text, s: Store, q: DeleteRequest, x: Option<Target>): Ref {
    if q.ref != NoRef || x.None? then q.ref
    else
      var value := x.value.value;
      var key := StoredKey(t, value);
      if key in s.table.rules then RuleRef(s.table.rules[key].id)
      else match FirstAuto(s.auto, value) case Some(tag) => AutoRef(tag) case None => NoRef
  }

  function DeleteAuto(s: Store, q: DeleteRequest, tag: string): (Store, Outcome) {
    var i := AutoIndex(s.auto, tag);
    if i == |s.auto| then (s, Failed(NotFound))
    else
      var response := Response(q.op, ApiRule(AutoRef(tag), s.auto[i].target, Auto, "", None, s.revision + 1), s.table.generation);
      (s.(auto := s.auto[..i] + s.auto[i + 1..], revision := s.revision + 1, ops := s.ops[DeleteOp(q.op) := response]), Done(response))
  }

  function Uninstall(t: Text, s: Store, q: DeleteRequest, ref: Ref, value: string): (Store, Outcome) {
    var x := ParseTarget(t, value);
    if x.None? then (s, Failed(InvalidInput))
    else
      var table := Remove(s.table, x.value);
      var response := Response(q.op, ApiRule(ref, value, Auto, "", None, s.revision + 1), table.generation);
      (Store(table, s.meta - {value}, WithoutTarget(s.auto, value), s.ops[DeleteOp(q.op) := response], s.revision + 1), Done(response))
  }

  /** DeleteRule after its pruning. */
  ghost function Delete(t: Text, s: Store, q: DeleteRequest): (Store, Outcome) {
    if !ValidOperationId(t, q.op) then (s, Failed(InvalidInput))
    else if DeleteOp(q.op) in s.ops then (s, Done(s.ops[DeleteOp(q.op)]))
    else
      var x := ParseTarget(t, q.target);
      if q.ref == NoRef && x.None? then (s, Failed(InvalidInput))
      else
        match Resolve(t, s, q, x)
        case AutoRef(tag) => DeleteAuto(s, q, tag)
        case RuleRef(id) =>
          var r := WithId(s.table.rules, id);
          if r.None? then (s, Failed(NotFound))
          else if q.expected.Some? && RevisionOf(s, r.value.target.value) != q.expected.value then (s, Failed(Conflict))
          else Uninstall(t, s, q, RuleRef(id), r.value.target.value)
        case _ => (s, Failed(NotFound))
  }

  // ---------------------------------------------------------------------------------------------
  // Metadata and engine stay coupled
  // ---------------------------------------------------------------------------------------------

  /** A stored text is normal, and the engine has the rule it stands for. */
  ghost predicate MetaOk(t: Text, s: Store, value: string)
    requires value in s.meta
  {
    && ParseTarget(t, value).Some? && ParseTarget(t, value).value.value == value
    && StoredKey(t, value) in s.table.rules
    && 0 < s.meta[value].revision <= s.revision
  }

  ghost predicate RuleStored(t: Text, s: Store, key: RuleKey)
    requires key in s.table.rules
  {
    key.value in s.meta && key == StoredKey(t, key.value)
  }

  ghost predicate Coupled(t: Text, s: Store) {
    && TableOk(t, s.table)
    && (forall value :: value in s.meta ==> MetaOk(t, s, value))
    && (forall key :: key in s.table.rules ==> RuleStored(t, s, key))
  }

  /** The metadata's keys are exactly the texts of the engine's rules, each of which has one rule. */
  lemma CoupledKeys(t: Text, s: Store)
    requires Coupled(t, s)
    ensures s.meta.Keys == set key | key in s.table.rules :: s.table.rules[key].target.value
    ensures forall j, k :: j in s.table.rules && k in s.table.rules && s.table.rules[j].target.value == s.table.rules[k].target.value ==> j == k
  {
    forall key | key in s.table.rules ensures s.table.rules[key].target.value == key.value && key.value in s.meta {
      assert RuleOk(t, s.table, key) && RuleStored(t, s, key);
    }
    forall value | value in s.meta ensures value in set key | key in s.table.rules :: s.table.rules[key].target.value {
      assert MetaOk(t, s, value);
      assert s.table.rules[StoredKey(t, value)].target.value == value;
    }
    forall j, k | j in s.table.rules && k in s.table.rules && s.table.rules[j].target.value == s.table.rules[k].target.value
      ensures j == k
    {
      assert RuleStored(t, s, j) && RuleStored(t, s, k);
    }
  }

  /** Removing a text from both sides. */
  lemma RemoveCoupled(t: Text, s: Store, value: string, d: Store)
    requires Coupled(t, s) && value in s.meta && ParseTarget(t, value).Some?
    requires d.table == Remove(s.table, ParseTarget(t, value).value) && d.meta == s.meta - {value} && d.revision >= s.revision
    ensures Coupled(t, d)
  {
    hide TableOk;
    assert MetaOk(t, s, value);
    var x := ParseTarget(t, value).value;
    RemoveKeeps(t, s.table, x);
    forall v | v in d.meta ensures MetaOk(t, d, v) {
      assert MetaOk(t, s, v);
      assert StoredKey(t, v).value == v && KeyOf(x).value == value;
    }
    forall key | key in d.table.rules ensures RuleStored(t, d, key) {
      assert RuleStored(t, s, key);
    }
  }

  lemma InstallCoupled(t: Text, s: Store, value: string, action: Action, now: int, meta: Meta, d: Store)
    requires Coupled(t, s) && Faithful(t) && action.Effective()
    requires ParseTarget(t, value).Some? && ParseTarget(t, value).value.value == value
    requires d.table == SetAction(s.table, ParseTarget(t, value).value, action, now).0
    requires d.meta == s.meta[value := meta] && d.revision == s.revision + 1 == meta.revision
    ensures Coupled(t, d)
  {
    hide TableOk, Faithful, ParseTarget;
    var x := ParseTarget(t, value).value;
    ParsedIsProper(t, value);
    SetKeeps(t, s.table, x, action, now);
    forall v | v in d.meta ensures MetaOk(t, d, v) {
      assert v != value ==> MetaOk(t, s, v);
    }
    forall key | key in d.table.rules ensures RuleStored(t, d, key) {
      assert key in s.table.rules ==> RuleStored(t, s, key);
    }
  }

  // ---------------------------------------------------------------------------------------------
  // Pruning
  // ---------------------------------------------------------------------------------------------

  function WithoutTargets(auto: seq<AutoRow>, targets: set<string>): seq<AutoRow> {
    if auto == [] then []
    else (if auto[0].target !in targets then [auto[0]] else []) + WithoutTargets(auto[1..], targets)
  }

  /** What pruning has done once it has visited these expired texts, in whatever order. */
  function Pruned(t: Text, s: Store, gone: set<string>): Store {
    s.(table := Table(s.table.rules - (set value | value in gone :: StoredKey(t, value)), s.table.nextId, s.table.generation + |gone|),
       meta := s.meta - gone, auto := WithoutTargets(s.auto, gone), revision := s.revision + |gone|)
  }

  function ExpiredTargets(s: Store, now: int): set<string> {
    set value | value in s.meta && Expired(s.meta[value], now)
  }

  function Prune(t: Text, s: Store, now: int): Store {
    Pruned(t, s, ExpiredTargets(s, now))
  }

  lemma {:induction false} WithoutOneMore(auto: seq<AutoRow>, gone: set<string>, value: string)
    ensures WithoutTarget(WithoutTargets(auto, gone), value) == WithoutTargets(auto, gone + {value})
  {
    if auto != [] {
      WithoutOneMore(auto[1..], gone, value);
      var rest := WithoutTargets(auto[1..], gone);
      assert ([auto[0]] + rest)[1..] == rest;
      assert [] + rest == rest;
    }
  }

  lemma {:induction false} WithoutNone(auto: seq<AutoRow>)
    ensures WithoutTargets(auto, {}) == auto
  {
    if auto != [] {
      WithoutNone(auto[1..]);
      assert auto == [auto[0]] + auto[1..];
    }
  }

  lemma PrunedNothing(t: Text, s: Store)
    ensures Pruned(t, s, {}) == s
  {
    WithoutNone(s.auto);
    assert (set value | value in {} :: StoredKey(t, value)) == {};
    assert s.table.rules - {} == s.table.rules && s.meta - {} == s.meta;
  }

  /** The order of visits does not matter: one more expired text is one more text in the set. */
  lemma PrunedOneMore(t: Text, s: Store, gone: set<string>, value: string)
    requires Coupled(t, s) && gone <= s.meta.Keys && value in s.meta && value !in gone
    ensures PruneOne(t, Pruned(t, s, gone), value) == Pruned(t, s, gone + {value})
  {
    hide TableOk, ParseTarget, StoredKey;
    WithoutOneMore(s.auto, gone, value);
    StoredKeyApart(t, s, gone, value);
    var (keys, more) := (set v | v in gone :: StoredKey(t, v), set v | v in gone + {value} :: StoredKey(t, v));
    assert more == keys + {StoredKey(t, value)};
    assert s.table.rules - keys - {StoredKey(t, value)} == s.table.rules - more;
    assert s.meta - gone - {value} == s.meta - (gone + {value});
  }

  lemma StoredKeyApart(t: Text, s: Store, gone: set<string>, value: string)
    requires Coupled(t, s) && gone <= s.meta.Keys && value in s.meta && value !in gone
    ensures ParseTarget(t, value).Some? && KeyOf(ParseTarget(t, value).value) == StoredKey(t, value)
    ensures StoredKey(t, value) in s.table.rules - (set v | v in gone :: StoredKey(t, v))
  {
    hide TableOk, ParseTarget;
    assert MetaOk(t, s, value);
    forall v | v in gone ensures StoredKey(t, v) != StoredKey(t, value) {
      assert MetaOk(t, s, v);
      assert StoredKey(t, v).value == v && StoredKey(t, value).value == value;
    }
  }

  lemma PruneCoupled(t: Text, s: Store, gone: set<string>)
    requires Coupled(t, s) && gone <= s.meta.Keys
    ensures Coupled(t, Pruned(t, s, gone))
  {
    hide ParseTarget, StoredKey, Proper;
    var d := Pruned(t, s, gone);
    forall key | key in d.table.rules ensures RuleOk(t, d.table, key) && RuleStored(t, d, key) {
      assert RuleOk(t, s.table, key) && RuleStored(t, s, key);
    }
    forall v | v in d.meta ensures MetaOk(t, d, v) {
      assert MetaOk(t, s, v);
      StoredKeyApart(t, s, gone, v);
    }
  }

  /** After pruning, every rule the engine can match is unexpired, and unexpired rules are untouched. */
  lemma PruneClears(t: Text, s: Store, now: int)
    requires Coupled(t, s)
    ensures var d := Prune(t, s, now);
      && Coupled(t, d)
      && (forall key :: key in d.table.rules ==> key.value in d.meta && !Expired(d.meta[key.value], now))
      && (forall key :: key in s.table.rules && key.value in s.meta && !Expired(s.meta[key.value], now) ==>
            key in d.table.rules && d.table.rules[key] == s.table.rules[key] && d.meta[key.value] == s.meta[key.value])
  {
    hide ParseTarget, StoredKey, TableOk;
    var gone := ExpiredTargets(s, now);
    PruneCoupled(t, s, gone);
    var d := Pruned(t, s, gone);
    forall key | key in d.table.rules ensures key.value in d.meta && !Expired(d.meta[key.value], now) {
      assert RuleStored(t, d, key);
    }
    forall key | key in s.table.rules && key.value in s.meta && !Expired(s.meta[key.value], now)
      ensures key in d.table.rules && d.meta[key.value] == s.meta[key.value]
    {
      assert RuleStored(t, s, key);
      StoredKeyApart(t, s, gone, key.value);
    }
  }

  // ---------------------------------------------------------------------------------------------
  // Every region keeps the coupling
  // ---------------------------------------------------------------------------------------------

  lemma WithIdIs(t: Text, e: Table, key: RuleKey)
    requires TableOk(t, e) && key in e.rules
    ensures WithId(e.rules, e.rules[key].id) == Some(e.rules[key])
  {
    assert HasId(e.rules, key, e.rules[key].id);
  }

  lemma WithIdStored(t: Text, s: Store, id: nat)
    requires Coupled(t, s) && WithId(s.table.rules, id).Some?
    ensures var value := WithId(s.table.rules, id).value.target.value;
      value in s.meta && MetaOk(t, s, value) && WithId(s.table.rules, id).value == s.table.rules[StoredKey(t, value)]
  {
    var key :| HasId(s.table.rules, key, id) && WithId(s.table.rules, id) == Some(s.table.rules[key]);
    assert RuleOk(t, s.table, key) && RuleStored(t, s, key);
    assert MetaOk(t, s, key.value);
  }

  lemma SetCoupled(t: Text, s: Store, q: SetRequest, checkedAt: int, now: int)
    requires Coupled(t, s) && Faithful(t)
    ensures Coupled(t, Set(t, s, q, checkedAt, now).0)
  {
    hide Coupled, Faithful, RefFailure, ParseTarget, SetAction, WithoutTarget, ValidOperationId;
    var d := Set(t, s, q, checkedAt, now).0;
    if d != s {
      var value := ParseTarget(t, q.target).value.value;
      ParsedIsProper(t, q.target);
      ParseStable(t, ParseTarget(t, q.target).value);
      InstallCoupled(t, s, value, q.result, now, d.meta[value], d);
    }
  }

  lemma DeleteCoupled(t: Text, s: Store, q: DeleteRequest)
    requires Coupled(t, s) && Faithful(t)
    ensures Coupled(t, Delete(t, s, q).0)
  {
    hide Coupled, Faithful, ParseTarget, Remove, WithoutTarget, ValidOperationId, Resolve, WithId, MetaOk;
    var d := Delete(t, s, q).0;
    if d != s {
      match Resolve(t, s, q, ParseTarget(t, q.target)) {
        case AutoRef(tag) => SameTables(t, s, d);
        case RuleRef(id) =>
          WithIdStored(t, s, id);
          RemoveCoupled(t, s, WithId(s.table.rules, id).value.target.value, d);
        case _ =>
      }
    }
  }

  lemma SameTables(t: Text, s: Store, d: Store)
    requires Coupled(t, s) && d.table == s.table && d.meta == s.meta && d.revision >= s.revision
    ensures Coupled(t, d)
  {
    forall v | v in d.meta ensures MetaOk(t, d, v) {
      assert MetaOk(t, s, v);
    }
    forall key | key in d.table.rules ensures RuleStored(t, d, key) {
      assert RuleStored(t, s, key);
    }
  }

  // ---------------------------------------------------------------------------------------------
  // Whole runs
  // ---------------------------------------------------------------------------------------------

  /** One region; `Elsewhere` is any other handler that moves the shared revision. */
  datatype Call =
    | Pruning(now: int)
    | Setting(request: SetRequest, checkedAt: int, now: int)
    | Deleting(delete: DeleteRequest)
    | Elsewhere

  ghost function After(t: Text, s: Store, call: Call): Store {
    match call
    case Pruning(now) => Prune(t, s, now)
    case Setting(q, checkedAt, now) => Set(t, s, q, checkedAt, now).0
    case Deleting(q) => Delete(t, s, q).0
    case Elsewhere => s.(revision := s.revision + 1)
  }

  ghost predicate Fresh(s: Store) {
    s.table == Table(map[], 0, 0) && s.meta == map[] && s.ops == map[]
  }

  ghost predicate IsRun(t: Text, run: seq<Store>, calls: seq<Call>) {
    && Faithful(t) && |run| == |calls| + 1 && Fresh(run[0])
    && forall i :: 0 <= i < |calls| ==> run[i + 1] == After(t, run[i], calls[i])
  }

  lemma AfterCoupled(t: Text, s: Store, call: Call)
    requires Coupled(t, s) && Faithful(t)
    ensures Coupled(t, After(t, s, call))
  {
    hide Coupled, Faithful, Set, Delete, Pruned;
    match call
    case Pruning(now) => PruneCoupled(t, s, ExpiredTargets(s, now));
    case Setting(q, checkedAt, now) => SetCoupled(t, s, q, checkedAt, now);
    case Deleting(q) => DeleteCoupled(t, s, q);
    case Elsewhere => SameTables(t, s, s.(revision := s.revision + 1));
  }

  /** In every reachable state metadata and engine are coupled. */
  lemma {:induction false} RunCoupled(t: Text, run: seq<Store>, calls: seq<Call>, i: nat)
    requires IsRun(t, run, calls) && i < |run|
    ensures Coupled(t, run[i])
  {
    if i > 0 {
      hide Coupled, After, Faithful;
      RunCoupled(t, run, calls, i - 1);
      AfterCoupled(t, run[i - 1], calls[i - 1]);
    }
  }

  // Operation identifiers

  ghost function Operation(call: Call): Option<OpKey> {
    match call
    case Setting(q, _, _) => Some(SetOp(q.op))
    case Deleting(q) => Some(DeleteOp(q.op))
    case _ => None
  }

  /** A recorded operation changes nothing; one that changes anything is recorded; records stay. */
  lemma StepRecords(t: Text, s: Store, call: Call)
    ensures var d := After(t, s, call);
      && (Operation(call).Some? && Operation(call).value in s.ops ==> d == s)
      && (Operation(call).Some? && d != s ==> Operation(call).value in d.ops)
      && (forall op :: op in s.ops ==> op in d.ops && d.ops[op] == s.ops[op])
  {
    hide ParseTarget, SetAction, Remove, WithoutTarget, WithoutTargets, ValidOperationId, Resolve, WithId, RefFailure;
  }

  lemma {:induction false} RecordsStay(t: Text, run: seq<Store>, calls: seq<Call>, i: nat, j: nat, op: OpKey)
    requires IsRun(t, run, calls) && i <= j < |run| && op in run[i].ops
    ensures op in run[j].ops && run[j].ops[op] == run[i].ops[op]
  {
    if i < j {
      hide After, Faithful;
      RecordsStay(t, run, calls, i, j - 1, op);
      StepRecords(t, run[j - 1], calls[j - 1]);
    }
  }

  /** Over a whole run an operation identifier takes effect at most once. */
  lemma EffectOnce(t: Text, run: seq<Store>, calls: seq<Call>, i: nat, j: nat)
    requires IsRun(t, run, calls) && i < |calls| && j < |calls|
    requires Operation(calls[i]).Some? && Operation(calls[i]) == Operation(calls[j])
    requires run[i + 1] != run[i] && run[j + 1] != run[j]
    ensures i == j
  {
    hide After, Faithful;
    var (low, high) := if i <= j then (i, j) else (j, i);
    if low < high {
      StepRecords(t, run[low], calls[low]);
      RecordsStay(t, run, calls, low + 1, high, Operation(calls[low]).value);
      StepRecords(t, run[high], calls[high]);
    }
  }

  // Expected revisions

  /** A target's metadata and rule are the same in both states, or absent from both. */
  ghost predicate SameRule(t: Text, s: Store, d: Store, value: string) {
    && (value in s.meta <==> value in d.meta)
    && (value in s.meta ==> s.meta[value] == d.meta[value])
    && var key := StoredKey(t, value);
    && (key in s.table.rules <==> key in d.table.rules)
    && (key in s.table.rules ==> s.table.rules[key] == d.table.rules[key])
  }

  /** A region leaves a target alone, or stamps it with a revision later than all before. */
  lemma StepStamps(t: Text, s: Store, call: Call, value: string)
    requires Coupled(t, s) && Faithful(t)
    ensures var d := After(t, s, call);
      && s.revision <= d.revision
      && (SameRule(t, s, d, value) || (value in d.meta ==> d.meta[value].revision > s.revision))
  {
    hide Coupled, Faithful, Set, Delete, StoredKey, ParseTarget, Pruned;
    match call {
      case Pruning(now) => PruneStamps(t, s, ExpiredTargets(s, now), value);
      case Setting(q, checkedAt, now) => SetStamps(t, s, q, checkedAt, now, value);
      case Deleting(q) => DeleteStamps(t, s, q, value);
      case Elsewhere =>
    }
  }

  lemma PruneStamps(t: Text, s: Store, gone: set<string>, value: string)
    requires Coupled(t, s) && gone <= s.meta.Keys
    ensures var d := Pruned(t, s, gone);
      s.revision <= d.revision && (SameRule(t, s, d, value) || value !in d.meta)
  {
    hide ParseTarget, StoredKey, TableOk;
    var d := Pruned(t, s, gone);
    if value !in gone {
      if value in s.meta {
        StoredKeyApart(t, s, gone, value);
      }
      assert value !in s.meta ==> value !in d.meta;
    }
  }

  lemma StoredIsNormal(t: Text, s: Store, value: string)
    requires Coupled(t, s) && value in s.meta
    ensures ParseTarget(t, value).Some? && ParseTarget(t, value).value.value == value && StoredKey(t, value).value == value
  {
    hide ParseTarget, TableOk;
    assert MetaOk(t, s, value);
  }

  lemma SetStamps(t: Text, s: Store, q: SetRequest, checkedAt: int, now: int, value: string)
    requires Coupled(t, s) && Faithful(t)
    ensures var d := Set(t, s, q, checkedAt, now).0;
      && s.revision <= d.revision
      && (SameRule(t, s, d, value) || (value in d.meta ==> d.meta[value].revision > s.revision))
  {
    hide Coupled, Faithful, RefFailure, ParseTarget, StoredKey, WithoutTarget, ValidOperationId;
    var d := Set(t, s, q, checkedAt, now).0;
    var x := ParseTarget(t, q.target);
    if d != s && value in d.meta && value != x.value.value {
      StoredIsNormal(t, s, value);
      ParsedIsProper(t, q.target);
      ParseStable(t, x.value);
      assert SameRule(t, s, d, value);
    }
  }

  lemma DeleteStamps(t: Text, s: Store, q: DeleteRequest, value: string)
    requires Coupled(t, s) && Faithful(t)
    ensures var d := Delete(t, s, q).0;
      s.revision <= d.revision && (SameRule(t, s, d, value) || value !in d.meta)
  {
    hide Coupled, Faithful, ParseTarget, StoredKey, WithoutTarget, ValidOperationId, Resolve, WithId, MetaOk;
    var d := Delete(t, s, q).0;
    if d != s && value in d.meta {
      StoredIsNormal(t, s, value);
      match Resolve(t, s, q, ParseTarget(t, q.target)) {
        case RuleRef(id) =>
          WithIdStored(t, s, id);
          StoredIsNormal(t, s, WithId(s.table.rules, id).value.target.value);
        case _ =>
      }
    }
  }

  ghost predicate Untouched(t: Text, run: seq<Store>, i: nat, j: nat, value: string)
    requires i <= j < |run|
  {
    forall k :: i <= k <= j ==> SameRule(t, run[i], run[k], value)
  }

  lemma {:induction false} Since(t: Text, run: seq<Store>, calls: seq<Call>, i: nat, j: nat, value: string)
    requires IsRun(t, run, calls) && i <= j < |run|
    ensures run[i].revision <= run[j].revision
    ensures Untouched(t, run, i, j, value) || (value in run[j].meta ==> run[j].meta[value].revision > run[i].revision)
  {
    hide After, Faithful, Coupled;
    if i < j {
      Since(t, run, calls, i, j - 1, value);
      RunCoupled(t, run, calls, j - 1);
      StepStamps(t, run[j - 1], calls[j - 1], value);
      if Untouched(t, run, i, j - 1, value) && SameRule(t, run[j - 1], run[j], value) {
        hide SameRule;
        SameRuleTransitive(t, run[i], run[j - 1], run[j], value);
        assert Untouched(t, run, i, j, value);
      }
    }
  }

  lemma SameRuleTransitive(t: Text, s: Store, d: Store, e: Store, value: string)
    requires SameRule(t, s, d, value) && SameRule(t, d, e, value)
    ensures SameRule(t, s, e, value)
  {
  }

  /** The text of the target a call works on: the one a set names, or that of the manual rule a delete leads to. */
  ghost function Subject(t: Text, s: Store, call: Call): Option<string> {
    match call
    case Setting(q, _, _) => var x := ParseTarget(t, q.target); if x.Some? then Some(x.value.value) else None
    case Deleting(q) =>
      (match Resolve(t, s, q, ParseTarget(t, q.target))
       case RuleRef(id) => var r := WithId(s.table.rules, id); if r.Some? then Some(r.value.target.value) else None
       case _ => None)
    case _ => None
  }

  ghost function Expected(call: Call): Option<nat> {
    match call
    case Setting(q, _, _) => q.expected
    case Deleting(q) => q.expected
    case _ => None
  }

  /** A call that is carried out, not answered from the record. */
  ghost predicate CarriedOut(t: Text, s: Store, call: Call) {
    match call
    case Setting(q, checkedAt, now) => Set(t, s, q, checkedAt, now).1.Done? && SetOp(q.op) !in s.ops
    case Deleting(q) => Delete(t, s, q).1.Done? && DeleteOp(q.op) !in s.ops
    case _ => false
  }

  /** A call is carried out under an expected revision only if that is its target's revision. */
  lemma RevisionChecked(t: Text, s: Store, call: Call, value: string)
    requires CarriedOut(t, s, call) && Subject(t, s, call) == Some(value) && Expected(call).Some?
    ensures Expected(call).value == RevisionOf(s, value)
  {
    hide ParseTarget, ValidOperationId, RefFailure, WithId, Install, Uninstall, Resolve, RevisionOf;
  }

  /**
   Optimistic locking is sound: if a set or a delete, by identifier or by target, names the revision an
   existing target had in some earlier state and is carried out, the target was not mutated in between.
   */
  lemma ExpectedRevisionGuards(t: Text, run: seq<Store>, calls: seq<Call>, i: nat, j: nat, value: string)
    requires IsRun(t, run, calls) && i <= j < |calls| && value in run[i].meta
    requires CarriedOut(t, run[j], calls[j]) && Subject(t, run[j], calls[j]) == Some(value)
    requires Expected(calls[j]) == Some(run[i].meta[value].revision)
    ensures Untouched(t, run, i, j, value) && value in run[j].meta
  {
    hide After, Faithful, Coupled, CarriedOut, Subject, Expected;
    RunCoupled(t, run, calls, i);
    StampBound(t, run[i], value);
    RevisionChecked(t, run[j], calls[j], value);
    Since(t, run, calls, i, j, value);
  }

  lemma StampBound(t: Text, s: Store, value: string)
    requires Coupled(t, s) && value in s.meta
    ensures 0 < s.meta[value].revision <= s.revision
  {
    hide TableOk, ParseTarget;
    assert MetaOk(t, s, value);
  }

  // ---------------------------------------------------------------------------------------------
  // What a call achieves
  // ---------------------------------------------------------------------------------------------

  /** The one kind of target whose text does not lead back to it: a domain that reads as an address. */
  predicate Misread(t: Text, x: Target) {
    x.Domain? && t.parseAddr(x.value).Some?
  }

  /**
   A new set operation that succeeds stores the metadata asked for and decides the target that its
   text parses to. It decides the target asked for exactly when that is not a domain that reads as an
   address; such a domain is left without any manual rule.
   */
  lemma SetIsObeyed(t: Text, s: Store, q: SetRequest, checkedAt: int, now: int)
    requires Coupled(t, s) && Faithful(t) && SetOp(q.op) !in s.ops && Set(t, s, q, checkedAt, now).1.Done?
    ensures var (d, r) := Set(t, s, q, checkedAt, now);
      && ParseTarget(t, q.target).Some?
      && var x := ParseTarget(t, q.target).value; var value := x.value;
      && ParseTarget(t, value).Some? && value in d.meta
      && d.meta[value] == Meta(t.trim(q.note), q.expiresAt, d.revision) && d.revision == s.revision + 1
      && (q.expiresAt.Some? ==> q.expiresAt.value > checkedAt)
      && Decides(d, ParseTarget(t, value).value, q, r)
      && (Decides(d, x, q, r) <==> !Misread(t, x))
      && (Misread(t, x) ==> IsMatch(d.table.rules, x, None))
      && (forall row :: row in d.auto ==> row.target != value)
      && d.ops == s.ops[SetOp(q.op) := r.response]
  {
    hide Coupled, Faithful, RefFailure, ParseTarget, WithoutTarget, ValidOperationId, SetAction;
    var d := Set(t, s, q, checkedAt, now).0;
    var x := ParseTarget(t, q.target).value;
    ParsedIsProper(t, q.target);
    ParseStable(t, x);
    var y := ParseTarget(t, x.value).value;
    SetKeepsOthers(s.table, y, q.result, now);
    assert IsMatch(d.table.rules, y, Some(SetAction(s.table, y, q.result, now).1));
    NoRowLeft(s.auto, x.value);
    SetCoupled(t, s, q, checkedAt, now);
    if Misread(t, x) {
      NoOtherKey(t, d, x);
    }
  }

  /** The rule a set answered with is the one that matches the target, with the action asked for. */
  ghost predicate Decides(d: Store, x: Target, q: SetRequest, r: Outcome)
    requires r.Done?
  {
    exists rule :: IsMatch(d.table.rules, x, Some(rule)) && rule.action == q.result && r.response.rule.ref == RuleRef(rule.id)
  }

  /** The store holds no rule under a key that its text does not parse to. */
  lemma NoOtherKey(t: Text, s: Store, x: Target)
    requires Coupled(t, s) && ParseTarget(t, x.value).Some? && ParseTarget(t, x.value).value.value == x.value
    requires ParseTarget(t, x.value).value.Kind() != x.Kind()
    ensures KeyOf(x) !in s.table.rules
  {
    hide ParseTarget, TableOk;
    forall key | key in s.table.rules ensures key == StoredKey(t, key.value) {
      assert RuleStored(t, s, key);
    }
  }

  const DOTTED: SetRequest := SetRequest("op", seq(32, _ => '0') + ".", Block, "", None, NoRef, None)

  /** A set that succeeds and is not obeyed: a trailing dot makes the address a domain, its stored text the address again. */
  lemma SetMayMiss() returns (s: Store, x: Target)
    ensures Faithful(BIT_TEXT) && Fresh(s) && ParseTarget(BIT_TEXT, DOTTED.target) == Some(x)
    ensures var (d, r) := Set(BIT_TEXT, s, DOTTED, 0, 0);
      r.Done? && IsMatch(d.table.rules, x, None) && !Decides(d, x, DOTTED, r)
  {
    var t := BIT_TEXT;
    BitTextIsFaithful();
    var (zeros, target) := (seq(32, _ => '0'), DOTTED.target);
    assert target[..32] == zeros && |target| == 33;
    s := Store(Table(map[], 0, 0), map[], [], map[], 0);
    x := Domain(zeros);
    assert !IsBitText(target) && IsBitText(zeros) && '/' !in target;
    assert ParseTarget(t, target) == Some(x);
    assert ValidOperationId(t, "op") by {
      assert OperationIdChar("op"[0]) && OperationIdChar("op"[1]);
    }
    ParsedIsProper(t, target);
    ParseStable(t, x);
    hide ParseTarget, Faithful;
    SetIsObeyed(t, s, DOTTED, 0, 0);
  }

  lemma {:induction false} NoRowLeft(auto: seq<AutoRow>, target: string)
    ensures forall row :: row in WithoutTarget(auto, target) <==> row in auto && row.target != target
  {
    if auto != [] {
      NoRowLeft(auto[1..], target);
      assert auto == [auto[0]] + auto[1..];
    }
  }

  /** A new delete, by identifier or by target, that leads to a manual rule and succeeds removes that rule, its metadata and nothing else. */
  lemma DeleteIsObeyed(t: Text, s: Store, q: DeleteRequest)
    requires Coupled(t, s) && Faithful(t) && CarriedOut(t, s, Deleting(q)) && Resolve(t, s, q, ParseTarget(t, q.target)).RuleRef?
    ensures Subject(t, s, Deleting(q)).Some?
    ensures var (d, r) := Delete(t, s, q); var value := Subject(t, s, Deleting(q)).value; var key := StoredKey(t, value);
      && (q.ref == NoRef ==> ParseTarget(t, q.target).Some? && value == ParseTarget(t, q.target).value.value)
      && (q.ref != NoRef ==> key in s.table.rules && q.ref == RuleRef(s.table.rules[key].id))
      && value in s.meta && d.meta == s.meta - {value} && key in s.table.rules && d.table.rules == s.table.rules - {key}
      && d.revision == s.revision + 1 && d.ops == s.ops[DeleteOp(q.op) := r.response]
      && r.response.rule.ref == RuleRef(s.table.rules[key].id) && r.response.generation == s.table.generation + 1
  {
    hide Coupled, Faithful, ParseTarget, WithoutTarget, ValidOperationId, MetaOk, WithId;
    var id := Resolve(t, s, q, ParseTarget(t, q.target)).id;
    WithIdStored(t, s, id);
    WithIdHas(s.table.rules, id);
    var value := WithId(s.table.rules, id).value.target.value;
    StoredIsNormal(t, s, value);
    StoredKeyApart(t, s, {}, value);
    if q.ref == NoRef {
      ResolvedByTarget(t, s, q);
    }
  }

  lemma WithIdHas(rules: map<RuleKey, Rule>, id: nat)
    requires WithId(rules, id).Some?
    ensures WithId(rules, id).value.id == id
  {
  }

  /** A target without a reference leads to the rule stored for its text. */
  lemma ResolvedByTarget(t: Text, s: Store, q: DeleteRequest)
    requires Coupled(t, s) && Faithful(t) && q.ref == NoRef && Resolve(t, s, q, ParseTarget(t, q.target)).RuleRef?
    ensures ParseTarget(t, q.target).Some?
    ensures WithId(s.table.rules, Resolve(t, s, q, ParseTarget(t, q.target)).id).Some?
    ensures WithId(s.table.rules, Resolve(t, s, q, ParseTarget(t, q.target)).id).value.target.value == ParseTarget(t, q.target).value.value
  {
    hide Faithful, ParseTarget, Proper;
    var value := ParseTarget(t, q.target).value.value;
    ParsedIsProper(t, q.target);
    ParseStable(t, ParseTarget(t, q.target).value);
    var key := StoredKey(t, value);
    WithIdIs(t, s.table, key);
    assert RuleOk(t, s.table, key);
  }

  /**
   Explaining is a region of its own: after a pruning, and whatever came in between, a rule that can
   match was unexpired at the pruning or was set after it.
   */
  lemma ExplainedAfterPruning(t: Text, run: seq<Store>, calls: seq<Call>, i: nat, j: nat, x: Target, rule: Rule)
    requires IsRun(t, run, calls) && i < j < |run| && calls[i].Pruning? && IsMatch(run[j].table.rules, x, Some(rule))
    ensures var value := rule.target.value;
      && value in run[j].meta
      && (!Expired(run[j].meta[value], calls[i].now) || run[j].meta[value].revision > run[i + 1].revision)
  {
    hide Faithful, Coupled, After, Expired, ParseTarget;
    RunCoupled(t, run, calls, i);
    RunCoupled(t, run, calls, i + 1);
    RunCoupled(t, run, calls, j);
    var key :| key in run[j].table.rules && run[j].table.rules[key] == rule;
    RuleInMeta(t, run[j], key);
    var value := rule.target.value;
    Since(t, run, calls, i + 1, j, value);
    if value in run[i + 1].meta {
      PrunedMeta(t, run[i], calls[i], value);
    }
  }

  lemma RuleInMeta(t: Text, s: Store, key: RuleKey)
    requires Coupled(t, s) && key in s.table.rules
    ensures s.table.rules[key].target.value in s.meta
  {
    assert RuleOk(t, s.table, key) && RuleStored(t, s, key);
  }

  lemma PrunedMeta(t: Text, s: Store, call: Call, value: string)
    requires call.Pruning? && value in After(t, s, call).meta
    ensures !Expired(After(t, s, call).meta[value], call.now)
  {
  }
}
