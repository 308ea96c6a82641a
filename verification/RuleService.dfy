/**
 The rule handlers of the service (app/service.go) as an object that owns a routing engine.
 */
module RuleService {
  import opened Bytes
  import opened Routing
  import opened RuleStore

  class Service {
    const engine: Engine
    var ruleMeta: map<string, Meta>
    var recentAuto: seq<AutoRow>
    var ruleOps: map<OpKey, Response>
    var revision: nat

    constructor (text: Text, decider: Option<Target -> Action>, recent: seq<AutoRow>)
      requires Faithful(text)
      ensures Valid() && fresh(engine) && RuleStore.Fresh(View()) && recentAuto == recent && engine.text == text
    {
      engine := new Engine(text, decider, Tunnel);
      ruleMeta, recentAuto, ruleOps, revision := map[], recent, map[], 0;
    }

    function View(): Store
      reads this, engine
    {
      Store(engine.table, ruleMeta, recentAuto, ruleOps, revision)
    }

    ghost predicate Valid()
      reads this, engine
    {
      engine.Valid() && Coupled(engine.text, View())
    }

    method RemoveRecentAutoLocked(target: string)
      modifies this`recentAuto
      ensures recentAuto == WithoutTarget(old(recentAuto), target)
    {
      hide WithoutTarget;
      var (rows, filtered) := (recentAuto, []);
      for i := 0 to |rows|
        invariant filtered + WithoutTarget(rows[i..], target) == WithoutTarget(rows, target)
      {
        NextRow(rows, i, target);
        if rows[i].target != target {
          filtered := filtered + [rows[i]];
        }
      }
      NoRows(target);
      assert rows[|rows|..] == [] && filtered + [] == filtered;
      recentAuto := filtered;
    }

    static lemma NextRow(rows: seq<AutoRow>, i: nat, target: string)
      requires i < |rows|
      ensures WithoutTarget(rows[i..], target) ==
        (if rows[i].target != target then [rows[i]] else []) + WithoutTarget(rows[i + 1..], target)
    {
      assert rows[i..][1..] == rows[i + 1..];
    }

    static lemma NoRows(target: string)
      ensures WithoutTarget([], target) == []
    {
    }

    /** Visits the metadata in an arbitrary order. */
    method PruneExpiredRules(now: int)
      requires Valid()
      modifies this, engine
      ensures Valid() && View() == Prune(engine.text, old(View()), now)
    {
      hide Coupled, Pruned, Expired, TableOk, Faithful, ParseTarget, Explains;
      ghost var (t, s) := (engine.text, View());
      ghost var gone: set<string> := {};
      var (all, remaining) := (ruleMeta, ruleMeta.Keys);
      PrunedNothing(t, s);
      while remaining != {}
        invariant engine.Valid() && remaining <= all.Keys && all == s.meta && Coupled(t, s)
        invariant gone == set value | value in s.meta && value !in remaining && Expired(s.meta[value], now)
        invariant View() == Pruned(t, s, gone)
        decreases remaining
      {
        var target :| target in remaining;
        remaining := remaining - {target};
        if Expired(all[target], now) {
          PrunedOneMore(t, s, gone, target);
          StoredIsNormal(t, s, target);
          var decision := engine.DeleteRule(target);
          if decision.Some? {
            revision := revision + 1;
          }
          ruleMeta := ruleMeta - {target};
          RemoveRecentAutoLocked(target);
          gone := gone + {target};
        }
      }
      assert gone == ExpiredTargets(s, now);
      PruneCoupled(t, s, gone);
    }

    /** Looks through the engine's rules for an identifier. */
    method FindRule(id: nat) returns (r: Option<Rule>)
      requires Valid()
      ensures r == WithId(engine.table.rules, id)
    {
      var (rules, remaining) := (engine.table.rules, engine.table.rules.Keys);
      while remaining != {}
        invariant remaining <= rules.Keys
        invariant forall key :: key in rules && key !in remaining ==> rules[key].id != id
        decreases remaining
      {
        var key :| key in remaining;
        if rules[key].id == id {
          WithIdIs(engine.text, engine.table, key);
          return Some(rules[key]);
        }
        remaining := remaining - {key};
      }
      r := None;
    }

    /** Looks through the engine's rules for a target text. */
    method FindTarget(value: string) returns (r: Option<Rule>)
      requires Valid()
      ensures var key := StoredKey(engine.text, value);
        r == if key in engine.table.rules && key.value == value then Some(engine.table.rules[key]) else None
    {
      CoupledKeys(engine.text, View());
      var (rules, remaining) := (engine.table.rules, engine.table.rules.Keys);
      KeysOfRules(engine.text, View());
      hide Coupled, TableOk, Faithful, StoredKey;
      while remaining != {}
        invariant remaining <= rules.Keys
        invariant forall key :: key in rules && key !in remaining ==> key.value != value
        decreases remaining
      {
        var key :| key in remaining;
        if rules[key].target.value == value {
          return Some(rules[key]);
        }
        remaining := remaining - {key};
      }
      r := None;
    }

    static lemma KeysOfRules(t: Text, s: Store)
      requires Coupled(t, s)
      ensures forall key :: key in s.table.rules ==> s.table.rules[key].target.value == key.value && key == StoredKey(t, key.value)
    {
      forall key | key in s.table.rules ensures s.table.rules[key].target.value == key.value && key == StoredKey(t, key.value) {
        assert RuleOk(t, s.table, key) && RuleStored(t, s, key);
      }
    }

    method SetRule(q: SetRequest, prunedAt: int, checkedAt: int, now: int) returns (r: Outcome)
      requires Valid()
      modifies this, engine
      ensures Valid()
      ensures (View(), r) ==
        if ValidOperationId(engine.text, q.op)
        then Set(engine.text, Prune(engine.text, old(View()), prunedAt), q, checkedAt, now)
        else (old(View()), Failed(InvalidInput))
    {
      hide Coupled, Prune, TableOk, Faithful, ParseTarget, ValidOperationId, RefFailure, SetAction;
      if !ValidOperationId(engine.text, q.op) {
        return Failed(InvalidInput);
      }
      PruneExpiredRules(prunedAt);
      ghost var (t, s) := (engine.text, View());
      SetCoupled(t, s, q, checkedAt, now);
      var target := ParseTarget(engine.text, q.target);
      if !q.result.Effective() || target.None? || (q.expiresAt.Some? && q.expiresAt.value <= checkedAt) {
        return Failed(InvalidInput);
      }
      if SetOp(q.op) in ruleOps {
        return Done(ruleOps[SetOp(q.op)]);
      }
      var value := target.value.value;
      var failure := CheckRef(q.ref, value);
      if failure.Some? {
        return Failed(failure.value);
      }
      if q.expected.Some? && (if value in ruleMeta then ruleMeta[value].revision else 0) != q.expected.value {
        return Failed(Conflict);
      }
      var rule := engine.SetRule(value, q.result, now);
      if rule.None? {
        return Failed(InvalidInput);
      }
      revision := revision + 1;
      var meta := Meta(engine.text.trim(q.note), q.expiresAt, revision);
      ruleMeta := ruleMeta[value := meta];
      RemoveRecentAutoLocked(value);
      var api := ApiRule(RuleRef(rule.value.id), rule.value.target.value, rule.value.action, meta.note, meta.expiresAt, meta.revision);
      var response := Response(q.op, api, engine.table.generation);
      ruleOps := ruleOps[SetOp(q.op) := response];
      r := Done(response);
    }

    method CheckRef(ref: Ref, value: string) returns (failure: Option<Failure>)
      requires Valid()
      ensures failure == RefFailure(View(), ref, value)
    {
      hide Coupled, TableOk, Faithful, WithId;
      if ref.NoRef? {
        return None;
      }
      if !ref.RuleRef? {
        return Some(NotFound);
      }
      var existing := FindRule(ref.id);
      if existing.None? {
        return Some(NotFound);
      }
      failure := if existing.value.target.value != value then Some(InvalidInput) else None;
    }

    /** The reference of a request, or what its target leads to. */
    method ResolveRef(q: DeleteRequest, target: Option<Target>) returns (ref: Ref)
      requires Valid() && target == ParseTarget(engine.text, q.target)
      ensures ref == Resolve(engine.text, View(), q, target)
    {
      hide Coupled, TableOk, Faithful, ParseTarget, StoredKey;
      ref := q.ref;
      if q.ref != NoRef || target.None? {
        return;
      }
      var value := target.value.value;
      NormalKey(engine.text, q.target);
      var candidate := FindTarget(value);
      if candidate.Some? {
        return RuleRef(candidate.value.id);
      }
      for i := 0 to |recentAuto|
        invariant FirstAuto(recentAuto[i..], value) == FirstAuto(recentAuto, value)
      {
        assert recentAuto[i..][1..] == recentAuto[i + 1..];
        if recentAuto[i].target == value {
          return AutoRef(recentAuto[i].tag);
        }
      }
    }

    static lemma NormalKey(t: Text, input: string)
      requires Faithful(t) && ParseTarget(t, input).Some?
      ensures StoredKey(t, ParseTarget(t, input).value.value).value == ParseTarget(t, input).value.value
    {
      hide Faithful, ParseTarget;
      ParsedIsProper(t, input);
      ParseStable(t, ParseTarget(t, input).value);
    }

    method DeleteRow(q: DeleteRequest, tag: string) returns (r: Outcome)
      modifies this`recentAuto, this`ruleOps, this`revision
      ensures (View(), r) == DeleteAuto(old(View()), q, tag)
    {
      ghost var at := AutoIndex(recentAuto, tag);
      for index := 0 to |recentAuto|
        invariant index <= at && View() == old(View())
      {
        var row := recentAuto[index];
        if row.tag == tag {
          recentAuto := recentAuto[..index] + recentAuto[index + 1..];
          revision := revision + 1;
          var response := Response(q.op, ApiRule(AutoRef(tag), row.target, Auto, "", None, revision), engine.table.generation);
          ruleOps := ruleOps[DeleteOp(q.op) := response];
          return Done(response);
        }
      }
      r := Failed(NotFound);
    }

    method DeleteMatched(q: DeleteRequest, id: nat) returns (r: Outcome)
      requires Valid()
      modifies this, engine
      ensures engine.Valid()
      ensures (View(), r) == match WithId(old(View()).table.rules, id)
        case None => (old(View()), Failed(NotFound))
        case Some(rule) =>
          if q.expected.Some? && RevisionOf(old(View()), rule.target.value) != q.expected.value then (old(View()), Failed(Conflict))
          else Uninstall(engine.text, old(View()), q, RuleRef(id), rule.target.value)
    {
      hide Coupled, TableOk, Faithful, ParseTarget, WithId, Explains;
      var matched := FindRule(id);
      if matched.None? {
        return Failed(NotFound);
      }
      var value := matched.value.target.value;
      WithIdStored(engine.text, View(), id);
      if q.expected.Some? && (if value in ruleMeta then ruleMeta[value].revision else 0) != q.expected.value {
        return Failed(Conflict);
      }
      var decision := engine.DeleteRule(value);
      ruleMeta := ruleMeta - {value};
      RemoveRecentAutoLocked(value);
      revision := revision + 1;
      var response := Response(q.op, ApiRule(RuleRef(id), value, Auto, "", None, revision), engine.table.generation);
      ruleOps := ruleOps[DeleteOp(q.op) := response];
      r := Done(response);
    }

    method DeleteRule(q: DeleteRequest, prunedAt: int) returns (r: Outcome)
      requires Valid()
      modifies this, engine
      ensures Valid()
      ensures (View(), r) ==
        if ValidOperationId(engine.text, q.op)
        then Delete(engine.text, Prune(engine.text, old(View()), prunedAt), q)
        else (old(View()), Failed(InvalidInput))
    {
      hide Coupled, Prune, TableOk, Faithful, ParseTarget, ValidOperationId, Resolve, DeleteAuto, Uninstall, WithId;
      if !ValidOperationId(engine.text, q.op) {
        return Failed(InvalidInput);
      }
      PruneExpiredRules(prunedAt);
      DeleteCoupled(engine.text, View(), q);
      if DeleteOp(q.op) in ruleOps {
        return Done(ruleOps[DeleteOp(q.op)]);
      }
      var target := ParseTarget(engine.text, q.target);
      if q.ref == NoRef && target.None? {
        return Failed(InvalidInput);
      }
      var ref := ResolveRef(q, target);
      match ref {
        case AutoRef(tag) => r := DeleteRow(q, tag);
        case RuleRef(id) => r := DeleteMatched(q, id);
        case _ => r := Failed(NotFound);
      }
    }

    /** With nothing between its two regions; RuleStore.ExplainedAfterPruning says what calls in between can change. */
    method ExplainRule(value: string, now: int) returns (r: Option<Decision>)
      requires Valid()
      modifies this, engine
      ensures Valid() && View() == Prune(engine.text, old(View()), now)
      ensures r.Some? <==> ParseTarget(engine.text, value).Some?
      ensures r.Some? ==> Explains(engine.table, ParseTarget(engine.text, value).value, engine.decider, engine.default, r.value)
      ensures r.Some? && r.value.matched.Some? ==>
        var text := r.value.matched.value.target.value; text in ruleMeta && !Expired(ruleMeta[text], now)
    {
      hide ParseTarget, TableOk, Faithful, Coupled;
      ghost var s := View();
      PruneExpiredRules(now);
      PruneClears(engine.text, s, now);
      r := engine.Explain(value);
      if r.Some? && r.value.matched.Some? {
        KeysOfRules(engine.text, View());
      }
    }
  }
}
