/**
 The grants authorizer: entity-level and type-level checks.

 `Authorize` and `AuthorizeType` follow the code: a shared prelude, then one query.
 `EntityVerdict` and `TypeVerdict` say the same policy over reachability, with no query
 and no order of evaluation, and the lemmas at the end are about that policy.
 */
module Authorizer {
  import opened Wrappers
  import opened MembershipChain

  type OpId = int

  datatype Entity = Entity(fundamentalType: Id, owner: Option<Id>)

  datatype Grant = Grant(actor: Id, operation: OpId, target: Option<Id>)

  /** `types` maps types.id to the nullable types.entity_id. */
  datatype Database = Database(
    entities: map<Id, Entity>,
    types: map<Id, Option<Id>>,
    grants: set<Grant>,
    actorMembers: set<Membership>,
    targetMembers: set<Membership>)

  /** SatisfiedBy: the operations that satisfy a slug; an absent slug is an error. */
  type Registry = map<string, set<OpId>>

  datatype Caller = Caller(actor: Option<Id>, sudo: Option<Id>)

  datatype Verdict = Allowed | Unauthenticated | Forbidden | QueryFailed

  /** Which of the two queries of one call fails, if it is issued. */
  datatype Faults = Faults(wildcardQuery: bool, grantQuery: bool)

  function EffectiveActor(caller: Caller): (actor: Option<Id>)
    ensures actor.None? <==> caller.sudo.None? && caller.actor.None?
    ensures caller.sudo.Some? ==> actor == caller.sudo
  {
    if caller.sudo.Some? then caller.sudo else caller.actor
  }

  // ----- the policy, over reachability -----

  ghost predicate InActorChain(db: Database, actor: Id, x: Id) {
    Reachable({actor}, db.actorMembers, x)
  }

  ghost predicate HoldsWildcard(db: Database, actor: Id, ops: set<OpId>) {
    exists g :: g in db.grants && g.operation in ops && g.target.None? && InActorChain(db, actor, g.actor)
  }

  /** Some actor-chain member holds a grant on something in the upward chain of `seed`. */
  ghost predicate HoldsGrantAbove(db: Database, actor: Id, seed: set<Id>, ops: set<OpId>) {
    exists g ::
      && g in db.grants && g.operation in ops && g.target.Some?
      && InActorChain(db, actor, g.actor) && Reachable(seed, db.targetMembers, g.target.value)
  }

  predicate Owns(db: Database, actor: Id, target: Id) {
    target in db.entities && db.entities[target].owner == Some(actor)
  }

  predicate IsTypeEntity(db: Database, e: Id) {
    exists t :: t in db.types && db.types[t] == Some(e)
  }

  /** The entity of a type, as a set: empty for an unknown type or one with no entity. */
  function TypeSeed(db: Database, typeId: Id): set<Id> {
    if typeId in db.types && db.types[typeId].Some? then {db.types[typeId].value} else {}
  }

  /** The target, and the entity of its exact type unless the target is itself a type entity. */
  function TargetSeed(db: Database, target: Id): set<Id> {
    {target} +
    if target in db.entities && !IsTypeEntity(db, target)
    then TypeSeed(db, db.entities[target].fundamentalType) else {}
  }

  ghost predicate WildcardAllows(db: Database, registry: Registry, actor: Id, operation: string) {
    if operation in registry then HoldsWildcard(db, actor, registry[operation])
    else "manage" in registry && HoldsWildcard(db, actor, registry["manage"])
  }

  ghost predicate MayActOn(db: Database, registry: Registry, actor: Id, operation: string, target: Option<Id>) {
    || WildcardAllows(db, registry, actor, operation)
    || (operation in registry && target.Some? &&
        (HoldsGrantAbove(db, actor, TargetSeed(db, target.value), registry[operation])
         || Owns(db, actor, target.value)))
  }

  ghost predicate MayActOnType(db: Database, registry: Registry, actor: Id, operation: string, typeId: Id) {
    && typeId > 0
    && (|| WildcardAllows(db, registry, actor, operation)
        || (operation in registry && HoldsGrantAbove(db, actor, TypeSeed(db, typeId), registry[operation])))
  }

  ghost function EntityVerdict(db: Database, registry: Registry, caller: Caller, operation: string,
                               target: Option<Id>): Verdict {
    match EffectiveActor(caller)
    case None => Unauthenticated
    case Some(actor) => if MayActOn(db, registry, actor, operation, target) then Allowed else Forbidden
  }

  ghost function TypeVerdict(db: Database, registry: Registry, caller: Caller, operation: string, typeId: Id): Verdict {
    match EffectiveActor(caller)
    case None => Unauthenticated
    case Some(actor) => if MayActOnType(db, registry, actor, operation, typeId) then Allowed else Forbidden
  }

  // ----- the code -----

  method CheckWildcardGrant(db: Database, actor: Id, ops: set<OpId>, faulty: bool) returns (r: Option<bool>)
    ensures r.None? <==> faulty
    ensures r.Some? ==> r.value == HoldsWildcard(db, actor, ops)
  {
    if faulty {
      return None;
    }
    var actorChain := Evaluate({actor}, db.actorMembers);
    r := Some(exists g :: g in db.grants && g.operation in ops && g.target.None? && g.actor in actorChain);
  }

  method CheckGrantOrOwn(db: Database, actor: Id, target: Id, ops: set<OpId>, faulty: bool) returns (r: Option<bool>)
    ensures r.None? <==> faulty
    ensures r.Some? ==>
              r.value == (HoldsGrantAbove(db, actor, TargetSeed(db, target), ops) || Owns(db, actor, target))
  {
    if faulty {
      return None;
    }
    var actorChain := Evaluate({actor}, db.actorMembers);
    var targetChain := Evaluate(TargetSeed(db, target), db.targetMembers);
    var granted := exists g :: g in db.grants && g.operation in ops && g.target.Some?
                               && g.actor in actorChain && g.target.value in targetChain;
    r := Some(granted || Owns(db, actor, target));
  }

  method CheckTypeGrant(db: Database, actor: Id, typeId: Id, ops: set<OpId>, faulty: bool) returns (r: Option<bool>)
    ensures r.None? <==> faulty
    ensures r.Some? ==> r.value == HoldsGrantAbove(db, actor, TypeSeed(db, typeId), ops)
  {
    if faulty {
      return None;
    }
    var actorChain := Evaluate({actor}, db.actorMembers);
    var targetChain := Evaluate(TypeSeed(db, typeId), db.targetMembers);
    r := Some(exists g :: g in db.grants && g.operation in ops && g.target.Some?
                          && g.actor in actorChain && g.target.value in targetChain);
  }

  /** `Final(v)` ends the call with `v`; `Continue` hands on the actor and its closure. */
  datatype Prelude = Final(verdict: Verdict) | Continue(actor: Id, ops: set<OpId>)

  method AuthorizePrelude(db: Database, registry: Registry, caller: Caller, operation: string, faulty: bool)
    returns (p: Prelude)
    ensures p == Final(QueryFailed) ==> faulty
    ensures p == Final(Unauthenticated) <==> EffectiveActor(caller).None?
    ensures p == Final(Allowed) ==>
              EffectiveActor(caller).Some? && WildcardAllows(db, registry, EffectiveActor(caller).value, operation)
    ensures p == Final(Forbidden) ==>
              && EffectiveActor(caller).Some? && operation !in registry
              && !WildcardAllows(db, registry, EffectiveActor(caller).value, operation)
    ensures p.Continue? ==>
              && EffectiveActor(caller) == Some(p.actor) && operation in registry && p.ops == registry[operation]
              && !WildcardAllows(db, registry, p.actor, operation)
  {
    var actor := EffectiveActor(caller);
    if actor.None? {
      return Final(Unauthenticated);
    }
    if operation !in registry {
      if "manage" !in registry {
        return Final(Forbidden);
      }
      var manage := CheckWildcardGrant(db, actor.value, registry["manage"], faulty);
      if manage.None? {
        return Final(QueryFailed);
      }
      return Final(if manage.value then Allowed else Forbidden);
    }
    var wildcard := CheckWildcardGrant(db, actor.value, registry[operation], faulty);
    if wildcard.None? {
      return Final(QueryFailed);
    }
    if wildcard.value {
      return Final(Allowed);
    }
    p := Continue(actor.value, registry[operation]);
  }

  /** The entity-level decision is the policy's; only a failed query can hide it. */
  method Authorize(db: Database, registry: Registry, caller: Caller, operation: string, target: Option<Id>,
                   faults: Faults)
    returns (verdict: Verdict)
    ensures verdict == QueryFailed ==> faults.wildcardQuery || faults.grantQuery
    ensures verdict != QueryFailed ==> verdict == EntityVerdict(db, registry, caller, operation, target)
  {
    var prelude := AuthorizePrelude(db, registry, caller, operation, faults.wildcardQuery);
    if prelude.Final? {
      return prelude.verdict;
    }
    if target.None? {
      return Forbidden;
    }
    var granted := CheckGrantOrOwn(db, prelude.actor, target.value, prelude.ops, faults.grantQuery);
    if granted.None? {
      return QueryFailed;
    }
    verdict := if granted.value then Allowed else Forbidden;
  }

  /** The type-level decision is the policy's; a non-positive type id is refused to everyone. */
  method AuthorizeType(db: Database, registry: Registry, caller: Caller, operation: string, typeId: Id, faults: Faults)
    returns (verdict: Verdict)
    ensures verdict == QueryFailed ==> faults.wildcardQuery || faults.grantQuery
    ensures verdict != QueryFailed ==> verdict == TypeVerdict(db, registry, caller, operation, typeId)
  {
    if EffectiveActor(caller).None? {
      return Unauthenticated;
    }
    if typeId <= 0 {
      return Forbidden;
    }
    var prelude := AuthorizePrelude(db, registry, caller, operation, faults.wildcardQuery);
    if prelude.Final? {
      return prelude.verdict;
    }
    var granted := CheckTypeGrant(db, prelude.actor, typeId, prelude.ops, faults.grantQuery);
    if granted.None? {
      return QueryFailed;
    }
    verdict := if granted.value then Allowed else Forbidden;
  }

  // ----- what the policy promises -----

  lemma GrantAboveMonotone(db: Database, db': Database, actor: Id, seed: set<Id>, seed': set<Id>, ops: set<OpId>)
    requires db.grants <= db'.grants && seed <= seed'
    requires db.actorMembers <= db'.actorMembers && db.targetMembers <= db'.targetMembers
    requires HoldsGrantAbove(db, actor, seed, ops)
    ensures HoldsGrantAbove(db', actor, seed', ops)
  {
    var g :| && g in db.grants && g.operation in ops && g.target.Some?
             && InActorChain(db, actor, g.actor) && Reachable(seed, db.targetMembers, g.target.value);
    ReachableMonotone({actor}, db.actorMembers, {actor}, db'.actorMembers, g.actor);
    ReachableMonotone(seed, db.targetMembers, seed', db'.targetMembers, g.target.value);
  }

  lemma WildcardMonotone(db: Database, db': Database, actor: Id, ops: set<OpId>)
    requires db.grants <= db'.grants && db.actorMembers <= db'.actorMembers
    requires HoldsWildcard(db, actor, ops)
    ensures HoldsWildcard(db', actor, ops)
  {
    var g :| g in db.grants && g.operation in ops && g.target.None? && InActorChain(db, actor, g.actor);
    ReachableMonotone({actor}, db.actorMembers, {actor}, db'.actorMembers, g.actor);
  }

  /**
   Adding grants or memberships never turns an allow into a deny.  Read with the roles of the
   two databases exchanged: removing them never turns a deny into an allow.
   */
  lemma AuthorityIsMonotone(db: Database, db': Database, registry: Registry, caller: Caller, operation: string,
                            target: Option<Id>, typeId: Id)
    requires db'.entities == db.entities && db'.types == db.types && db.grants <= db'.grants
    requires db.actorMembers <= db'.actorMembers && db.targetMembers <= db'.targetMembers
    ensures EntityVerdict(db, registry, caller, operation, target) == Allowed ==>
              EntityVerdict(db', registry, caller, operation, target) == Allowed
    ensures TypeVerdict(db, registry, caller, operation, typeId) == Allowed ==>
              TypeVerdict(db', registry, caller, operation, typeId) == Allowed
  {
    var actor := EffectiveActor(caller);
    if actor.Some? {
      var slug := if operation in registry then operation else "manage";
      if slug in registry && HoldsWildcard(db, actor.value, registry[slug]) {
        WildcardMonotone(db, db', actor.value, registry[slug]);
      }
      if operation in registry {
        var ops := registry[operation];
        if HoldsGrantAbove(db, actor.value, TypeSeed(db, typeId), ops) {
          GrantAboveMonotone(db, db', actor.value, TypeSeed(db, typeId), TypeSeed(db', typeId), ops);
        }
        if target.Some? && HoldsGrantAbove(db, actor.value, TargetSeed(db, target.value), ops) {
          GrantAboveMonotone(db, db', actor.value, TargetSeed(db, target.value), TargetSeed(db', target.value), ops);
        }
      }
    }
  }

  /** A type-level allow is an instance-level allow over every entity of exactly that type. */
  lemma TypeGrantLiftsToInstances(db: Database, registry: Registry, caller: Caller, operation: string, typeId: Id,
                                  instance: Id)
    requires TypeVerdict(db, registry, caller, operation, typeId) == Allowed
    requires instance in db.entities && db.entities[instance].fundamentalType == typeId
    requires !IsTypeEntity(db, instance)
    ensures EntityVerdict(db, registry, caller, operation, Some(instance)) == Allowed
  {
    var actor := EffectiveActor(caller).value;
    if !WildcardAllows(db, registry, actor, operation) {
      GrantAboveMonotone(db, db, actor, TypeSeed(db, typeId), TargetSeed(db, instance), registry[operation]);
    }
  }

  /** The two databases hold the same wildcard grants and the same grants on the upward chain of `seed`. */
  ghost predicate SameGrantsAbove(db: Database, db': Database, seed: set<Id>) {
    && db'.actorMembers == db.actorMembers && db'.targetMembers == db.targetMembers
    && forall g: Grant :: (g.target.None? || Reachable(seed, db.targetMembers, g.target.value)) ==>
                            (g in db.grants <==> g in db'.grants)
  }

  lemma GrantsAboveDecide(db: Database, db': Database, actor: Id, seed: set<Id>, ops: set<OpId>)
    requires SameGrantsAbove(db, db', seed)
    ensures HoldsGrantAbove(db, actor, seed, ops) ==> HoldsGrantAbove(db', actor, seed, ops)
    ensures HoldsWildcard(db, actor, ops) ==> HoldsWildcard(db', actor, ops)
  {
    if HoldsGrantAbove(db, actor, seed, ops) {
      var g :| && g in db.grants && g.operation in ops && g.target.Some?
               && InActorChain(db, actor, g.actor) && Reachable(seed, db.targetMembers, g.target.value);
      assert g in db'.grants && InActorChain(db', actor, g.actor);
    }
    if HoldsWildcard(db, actor, ops) {
      var g :| g in db.grants && g.operation in ops && g.target.None? && InActorChain(db, actor, g.actor);
      assert g in db'.grants && InActorChain(db', actor, g.actor);
    }
  }

  /**
   A type-level answer reads neither entity rows nor grants outside the type's upward chain, so an
   entity whose id happens to equal the type id never matters.
   */
  lemma TypeVerdictIgnoresEntities(db: Database, db': Database, registry: Registry, caller: Caller, operation: string,
                                   typeId: Id)
    requires db'.types == db.types
    requires SameGrantsAbove(db, db', TypeSeed(db, typeId))
    ensures TypeVerdict(db', registry, caller, operation, typeId) ==
            TypeVerdict(db, registry, caller, operation, typeId)
  {
    var actor := EffectiveActor(caller);
    if actor.Some? {
      var seed := TypeSeed(db, typeId);
      var slug := if operation in registry then operation else "manage";
      if slug in registry {
        GrantsAboveDecide(db, db', actor.value, seed, registry[slug]);
        GrantsAboveDecide(db', db, actor.value, seed, registry[slug]);
      }
    }
  }

  /** An entity-level answer reads the target's own row and the grants on its upward chain, and no more. */
  lemma EntityVerdictReadsOnlyItsChain(db: Database, db': Database, registry: Registry, caller: Caller,
                                       operation: string, target: Id)
    requires db'.types == db.types
    requires target in db.entities <==> target in db'.entities
    requires target in db.entities ==> db'.entities[target] == db.entities[target]
    requires SameGrantsAbove(db, db', TargetSeed(db, target))
    ensures EntityVerdict(db', registry, caller, operation, Some(target)) ==
            EntityVerdict(db, registry, caller, operation, Some(target))
  {
    var actor := EffectiveActor(caller);
    if actor.Some? {
      var seed := TargetSeed(db, target);
      var slug := if operation in registry then operation else "manage";
      if slug in registry {
        GrantsAboveDecide(db, db', actor.value, seed, registry[slug]);
        GrantsAboveDecide(db', db, actor.value, seed, registry[slug]);
      }
    }
  }

  /**
   A grant on the sentinel's entity (the type of type entities) confers nothing over a type entity,
   unless a membership chain leads from that type entity up to it.
   */
  lemma SentinelGrantConfersNothing(db: Database, registry: Registry, caller: Caller, operation: string,
                                    typeEntity: Id, sentinelEntity: Id, holder: Id, op: OpId)
    requires IsTypeEntity(db, typeEntity)
    requires !Reachable({typeEntity}, db.targetMembers, sentinelEntity)
    ensures var db' := db.(grants := db.grants + {Grant(holder, op, Some(sentinelEntity))});
            EntityVerdict(db', registry, caller, operation, Some(typeEntity))
            == EntityVerdict(db, registry, caller, operation, Some(typeEntity))
  {
    var db' := db.(grants := db.grants + {Grant(holder, op, Some(sentinelEntity))});
    assert TargetSeed(db, typeEntity) == {typeEntity};
    EntityVerdictReadsOnlyItsChain(db, db', registry, caller, operation, typeEntity);
  }

  // ----- the verdicts, on the columns -----

  lemma ReachableFromUnion(a: set<Id>, b: set<Id>, edges: set<Membership>, x: Id)
    ensures Reachable(a + b, edges, x) <==> Reachable(a, edges, x) || Reachable(b, edges, x)
  {
    if Reachable(a, edges, x) {
      ReachableMonotone(a, edges, a + b, edges, x);
    }
    if Reachable(b, edges, x) {
      ReachableMonotone(b, edges, a + b, edges, x);
    }
    if path: seq<Id> :| WalkTo(path, a + b, edges, x) {
      assert WalkTo(path, if path[0] in a then a else b, edges, x);
    }
  }

  lemma NothingAboveNothing(edges: set<Membership>, x: Id)
    ensures !Reachable({}, edges, x)
  {
  }

  /** The entity of the target's exact type is `above`, and the target is not itself a type entity. */
  predicate ExactTypeEntity(db: Database, target: Id, above: Id) {
    && target in db.entities && db.entities[target].fundamentalType in db.types
    && db.types[db.entities[target].fundamentalType] == Some(above)
    && forall t :: t in db.types ==> db.types[t] != Some(target)
  }

  /** A walk up the target memberships from the target or from its type's entity. */
  ghost predicate CoversTarget(db: Database, target: Id, granted: Id) {
    || Reachable({target}, db.targetMembers, granted)
    || exists above :: ExactTypeEntity(db, target, above) && Reachable({above}, db.targetMembers, granted)
  }

  lemma TargetSeedReaches(db: Database, target: Id, granted: Id)
    ensures Reachable(TargetSeed(db, target), db.targetMembers, granted) <==> CoversTarget(db, target, granted)
  {
    if IsTypeEntity(db, target) {
      assert forall above :: !ExactTypeEntity(db, target, above);
      assert TargetSeed(db, target) == {target};
    } else if target in db.entities {
      var seed := TypeSeed(db, db.entities[target].fundamentalType);
      ReachableFromUnion({target}, seed, db.targetMembers, granted);
      NothingAboveNothing(db.targetMembers, granted);
      if seed != {} {
        assert ExactTypeEntity(db, target, db.types[db.entities[target].fundamentalType].value);
      }
    } else {
      assert TargetSeed(db, target) == {target};
    }
  }

  /** A grant row held by the actor or by a group above it. */
  ghost predicate HeldGrant(db: Database, actor: Id, g: Grant) {
    g in db.grants && Reachable({actor}, db.actorMembers, g.actor)
  }

  /** The operations that count for a slug: its own, or those of "manage" when the slug is unknown. */
  predicate Satisfies(registry: Registry, operation: string, op: OpId) {
    if operation in registry then op in registry[operation] else "manage" in registry && op in registry["manage"]
  }

  /**
   An identified caller may act on a target exactly when a grant row without a target satisfies the operation, or the
   operation is known and a grant row on something above the target does, or the owner column names the caller.
   */
  lemma EntityVerdictIff(db: Database, registry: Registry, caller: Caller, operation: string, target: Option<Id>)
    ensures var actor := if caller.sudo.Some? then caller.sudo else caller.actor;
            var verdict := EntityVerdict(db, registry, caller, operation, target);
            && (verdict == Unauthenticated <==> actor.None?)
            && (actor.Some? ==> verdict in {Allowed, Forbidden})
            && (verdict == Allowed <==>
                  && actor.Some?
                  && (|| (exists g :: && HeldGrant(db, actor.value, g) && g.target.None?
                                      && Satisfies(registry, operation, g.operation))
                      || (operation in registry && target.Some? &&
                          (|| (target.value in db.entities && db.entities[target.value].owner == actor)
                           || (exists g :: && HeldGrant(db, actor.value, g) && g.operation in registry[operation]
                                           && g.target.Some? && CoversTarget(db, target.value, g.target.value))))))
  {
    if target.Some? {
      forall granted ensures
          Reachable(TargetSeed(db, target.value), db.targetMembers, granted) <==>
              CoversTarget(db, target.value, granted)
      {
        TargetSeedReaches(db, target.value, granted);
      }
    }
    var actor := if caller.sudo.Some? then caller.sudo else caller.actor;
    if actor.Some? {
      assert WildcardAllows(db, registry, actor.value, operation) <==>
             exists g :: && HeldGrant(db, actor.value, g) && g.target.None? && Satisfies(registry, operation,
                                                                                         g.operation);
    }
  }

  /** Without any grant, ownership alone decides. */
  lemma WithoutGrantsOwnersDecide(db: Database, registry: Registry, actor: Id, operation: string, target: Id)
    requires db.grants == {}
    ensures EntityVerdict(db, registry, Caller(Some(actor), None), operation, Some(target)) ==
            if operation in registry && target in db.entities && db.entities[target].owner == Some(actor)
            then Allowed else Forbidden
  {
  }

  /** The same for a type: no ownership, and only what is above the type's entity. */
  lemma TypeVerdictIff(db: Database, registry: Registry, caller: Caller, operation: string, typeId: Id)
    ensures var actor := if caller.sudo.Some? then caller.sudo else caller.actor;
            var verdict := TypeVerdict(db, registry, caller, operation, typeId);
            && (verdict == Unauthenticated <==> actor.None?)
            && (actor.Some? ==> verdict in {Allowed, Forbidden})
            && (verdict == Allowed <==>
                  && actor.Some? && typeId > 0
                  && (|| (exists g :: && HeldGrant(db, actor.value, g) && g.target.None?
                                      && Satisfies(registry, operation, g.operation))
                      || (&& operation in registry && typeId in db.types && db.types[typeId].Some?
                          && exists g :: && HeldGrant(db, actor.value, g) && g.operation in registry[operation]
                                         && g.target.Some?
                                         && Reachable({db.types[typeId].value}, db.targetMembers, g.target.value))))
  {
    var actor := if caller.sudo.Some? then caller.sudo else caller.actor;
    if actor.Some? {
      assert WildcardAllows(db, registry, actor.value, operation) <==>
             exists g :: && HeldGrant(db, actor.value, g) && g.target.None? && Satisfies(registry, operation,
                                                                                         g.operation);
    }
    forall x ensures !Reachable({}, db.targetMembers, x) {
      NothingAboveNothing(db.targetMembers, x);
    }
  }
}
