/** Which exchange keys the grants allow and the ceiling each carries
    (internal/keygrant/keygrant.go). */
module KeyGrant {
  import opened Strings

  datatype Grant = Grant(
    namespace: string, name: string, identity: string, environments: seq<string>,
    serviceAccounts: seq<string>, maxBudget: Option<real>, budgetDuration: string)

  datatype TagBudget = TagBudget(maxBudget: real, budgetDuration: string)

  datatype ExchangeKey = ExchangeKey(id: string, owner: string, environment: string, requester: string)

  predicate Covers(g: Grant, identity: string, env: string, requester: string) {
    g.identity == identity && env in g.environments && requester in g.serviceAccounts
  }

  function CoveringOf(grants: seq<Grant>, identity: string, env: string, requester: string): (r: seq<Grant>) {
    if grants == [] then []
    else
      var r := CoveringOf(grants[..|grants| - 1], identity, env, requester);
      if Covers(grants[|grants| - 1], identity, env, requester) then r + [grants[|grants| - 1]] else r
  }

  method Covering(grants: seq<Grant>, identity: string, env: string, requester: string) returns (out: seq<Grant>)
    ensures out == CoveringOf(grants, identity, env, requester)
  {
    out := [];
    for i := 0 to |grants|
      invariant out == CoveringOf(grants[..i], identity, env, requester)
    {
      assert grants[..i + 1][..i] == grants[..i];
      if grants[i].identity == identity && env in grants[i].environments && requester in grants[i].serviceAccounts {
        out := out + [grants[i]];
      }
    }
    assert grants[..|grants|] == grants;
  }

  lemma {:induction false} CoveringMembers(grants: seq<Grant>, identity: string, env: string, requester: string)
    ensures forall g :: g in CoveringOf(grants, identity, env, requester) <==>
              g in grants && g.identity == identity && env in g.environments && requester in g.serviceAccounts
  {
    if grants != [] {
      var init, last := grants[..|grants| - 1], grants[|grants| - 1];
      CoveringMembers(init, identity, env, requester);
      assert forall g :: g in grants <==> g in init || g == last;
    }
  }

  // ----- The order on budgets

  predicate BudgetLess(a: Grant, b: Grant)
    requires a.maxBudget.Some? && b.maxBudget.Some?
  {
    if a.maxBudget.value != b.maxBudget.value then a.maxBudget.value < b.maxBudget.value
    else if a.namespace != b.namespace then Less(a.namespace, b.namespace)
    else if a.name != b.name then Less(a.name, b.name)
    else Less(a.budgetDuration, b.budgetDuration)
  }

  /** Same place in the order. */
  predicate SameRank(a: Grant, b: Grant) {
    && a.maxBudget == b.maxBudget && a.namespace == b.namespace
    && a.name == b.name && a.budgetDuration == b.budgetDuration
  }

  lemma BudgetLessTotal(a: Grant, b: Grant)
    requires a.maxBudget.Some? && b.maxBudget.Some?
    ensures BudgetLess(a, b) || BudgetLess(b, a) || SameRank(a, b)
    ensures !(BudgetLess(a, b) && BudgetLess(b, a))
    ensures SameRank(a, b) ==> !BudgetLess(a, b)
  {
    LessTotal(a.namespace, b.namespace);
    LessTotal(a.name, b.name);
    LessTotal(a.budgetDuration, b.budgetDuration);
  }

  lemma BudgetLessTransitive(a: Grant, b: Grant, c: Grant)
    requires a.maxBudget.Some? && b.maxBudget.Some? && c.maxBudget.Some?
    requires BudgetLess(a, b) && BudgetLess(b, c)
    ensures BudgetLess(a, c)
  {
    if a.maxBudget == b.maxBudget == c.maxBudget {
      if a.namespace != b.namespace && b.namespace != c.namespace {
        LessTransitive(a.namespace, b.namespace, c.namespace);
        LessTotal(a.namespace, c.namespace);
      } else if a.namespace == b.namespace == c.namespace {
        if a.name != b.name && b.name != c.name {
          LessTransitive(a.name, b.name, c.name);
          LessTotal(a.name, c.name);
        } else if a.name == b.name == c.name {
          LessTransitive(a.budgetDuration, b.budgetDuration, c.budgetDuration);
        }
      }
    }
  }

  /** `b` is the ceiling of a set of grants: nothing when none sets a budget, otherwise the
      budget of a grant that no budgeted grant undercuts. */
  ghost predicate IsLeastBudget(grants: set<Grant>, b: Option<TagBudget>) {
    match b
    case None => forall g | g in grants :: g.maxBudget.None?
    case Some(t) => exists g :: IsLeast(grants, g) && t == TagBudget(g.maxBudget.value, g.budgetDuration)
  }

  ghost predicate IsLeast(grants: set<Grant>, g: Grant) {
    && g in grants && g.maxBudget.Some?
    && forall h | h in grants && h.maxBudget.Some? :: !BudgetLess(h, g)
  }

  /** The ceiling depends on the set of grants only. */
  lemma LeastBudgetUnique(grants: set<Grant>, b: Option<TagBudget>, c: Option<TagBudget>)
    requires IsLeastBudget(grants, b) && IsLeastBudget(grants, c)
    ensures b == c
  {
    if b.Some? && c.Some? {
      var g :| IsLeast(grants, g) && b.value == TagBudget(g.maxBudget.value, g.budgetDuration);
      var h :| IsLeast(grants, h) && c.value == TagBudget(h.maxBudget.value, h.budgetDuration);
      BudgetLessTotal(g, h);
    }
  }

  function SetOf(grants: seq<Grant>): (r: set<Grant>) {
    set g | g in grants
  }

  method Budget(covering: seq<Grant>) returns (b: Option<TagBudget>)
    ensures IsLeastBudget(SetOf(covering), b)
  {
    var best: Option<Grant> := None;
    for i := 0 to |covering|
      invariant best.None? ==> forall k :: 0 <= k < i ==> covering[k].maxBudget.None?
      invariant best.Some? ==> best.value in covering && best.value.maxBudget.Some?
      invariant best.Some? ==>
                  forall k :: 0 <= k < i && covering[k].maxBudget.Some? ==> !BudgetLess(covering[k], best.value)
    {
      var g := covering[i];
      if g.maxBudget.Some? && (best.None? || BudgetLess(g, best.value)) {
        forall k | 0 <= k < i && covering[k].maxBudget.Some? ensures !BudgetLess(covering[k], g) {
          if BudgetLess(covering[k], g) {
            BudgetLessTransitive(covering[k], g, best.value);
            assert false;
          }
        }
        BudgetLessTotal(g, g);
        best := Some(g);
      }
    }
    if best.None? {
      return None;
    }
    b := Some(TagBudget(best.value.maxBudget.value, best.value.budgetDuration));
    assert IsLeast(SetOf(covering), best.value);
  }

  // ----- Plan

  /** The grants of one key. */
  function GrantsFor(grants: seq<Grant>, k: ExchangeKey): (r: seq<Grant>) {
    CoveringOf(grants, k.owner, k.environment, k.requester)
  }

  /** Key ids are primary keys. */
  ghost predicate DistinctIds(keys: seq<ExchangeKey>) {
    forall i, j :: 0 <= i < j < |keys| ==> keys[i].id != keys[j].id
  }

  function Uncovered(grants: seq<Grant>, keys: seq<ExchangeKey>): (r: seq<ExchangeKey>) {
    if keys == [] then []
    else
      var r := Uncovered(grants, keys[..|keys| - 1]);
      if GrantsFor(grants, keys[|keys| - 1]) == [] then r + [keys[|keys| - 1]] else r
  }

  /** The ceilings: exactly the covered keys whose grants set one, each with the least. */
  ghost predicate Ceilings(grants: seq<Grant>, keys: seq<ExchangeKey>, budgets: map<string, TagBudget>) {
    && (forall k | k in keys ::
          IsLeastBudget(SetOf(GrantsFor(grants, k)), if k.id in budgets then Some(budgets[k.id]) else None))
    && (forall id | id in budgets :: exists k :: k in keys && k.id == id)
  }

  /** A key with a new id joins with its own ceiling, if it has one. */
  lemma CeilingsSnoc(
    grants: seq<Grant>, keys: seq<ExchangeKey>, i: nat, budgets: map<string, TagBudget>, b: Option<TagBudget>)
    requires DistinctIds(keys) && i < |keys| && Ceilings(grants, keys[..i], budgets)
    requires IsLeastBudget(SetOf(GrantsFor(grants, keys[i])), b)
    ensures Ceilings(grants, keys[..i + 1], if b.Some? then budgets[keys[i].id := b.value] else budgets)
  {
  }

  /** One grant names the key's owner, environment and requester. */
  predicate GivesTo(g: Grant, k: ExchangeKey) {
    g.identity == k.owner && k.environment in g.environments && k.requester in g.serviceAccounts
  }

  /** Lower budget, then namespace, then name, then duration. */
  predicate NoDearer(g: Grant, h: Grant)
    requires g.maxBudget.Some? && h.maxBudget.Some?
  {
    || g.maxBudget.value < h.maxBudget.value
    || (&& g.maxBudget == h.maxBudget
        && (|| Less(g.namespace, h.namespace)
            || (&& g.namespace == h.namespace
                && (|| Less(g.name, h.name)
                    || (&& g.name == h.name
                        && (Less(g.budgetDuration, h.budgetDuration) || g.budgetDuration == h.budgetDuration))))))
  }

  ghost predicate Cheapest(grants: seq<Grant>, k: ExchangeKey, g: Grant) {
    && g in grants && GivesTo(g, k) && g.maxBudget.Some?
    && forall h | h in grants && GivesTo(h, k) && h.maxBudget.Some? :: NoDearer(g, h)
  }

  lemma NoDearerExact(g: Grant, h: Grant)
    requires g.maxBudget.Some? && h.maxBudget.Some?
    ensures NoDearer(g, h) <==> !BudgetLess(h, g)
  {
    LessTotal(g.namespace, h.namespace);
    LessTotal(g.name, h.name);
    LessTotal(g.budgetDuration, h.budgetDuration);
  }

  lemma LeastIsCheapest(grants: seq<Grant>, k: ExchangeKey, g: Grant)
    requires IsLeast(SetOf(GrantsFor(grants, k)), g)
    ensures Cheapest(grants, k, g)
  {
    CoveringMembers(grants, k.owner, k.environment, k.requester);
    forall h | h in grants && GivesTo(h, k) && h.maxBudget.Some? ensures NoDearer(g, h) {
      assert h in SetOf(GrantsFor(grants, k));
      NoDearerExact(g, h);
    }
  }

  /** What the ceiling of one key is. */
  lemma CeilingMeans(grants: seq<Grant>, k: ExchangeKey, b: Option<TagBudget>)
    requires IsLeastBudget(SetOf(GrantsFor(grants, k)), b)
    ensures b.Some? <==> exists g :: g in grants && GivesTo(g, k) && g.maxBudget.Some?
    ensures b.Some? ==>
              exists g :: Cheapest(grants, k, g) && b.value == TagBudget(g.maxBudget.value, g.budgetDuration)
  {
    CoveringMembers(grants, k.owner, k.environment, k.requester);
    if b.Some? {
      var g :| IsLeast(SetOf(GrantsFor(grants, k)), g) && b.value == TagBudget(g.maxBudget.value, g.budgetDuration);
      LeastIsCheapest(grants, k, g);
    } else {
      forall g | g in grants && GivesTo(g, k) ensures g.maxBudget.None? {
        assert g in SetOf(GrantsFor(grants, k));
      }
    }
  }

  lemma {:induction false} UncoveredMeans(grants: seq<Grant>, keys: seq<ExchangeKey>)
    ensures forall k :: k in Uncovered(grants, keys) <==> k in keys && !exists g :: g in grants && GivesTo(g, k)
  {
    if keys != [] {
      var init, last := keys[..|keys| - 1], keys[|keys| - 1];
      UncoveredMeans(grants, init);
      CoveringMembers(grants, last.owner, last.environment, last.requester);
      var c := GrantsFor(grants, last);
      assert c != [] ==> c[0] in c;
      assert forall k :: k in keys <==> k in init || k == last;
    }
  }

  /** Revokes, in order, the keys no grant gives to, and gives every other key the budget of the cheapest
      grant to it, if any sets one. */
  method Plan(grants: seq<Grant>, keys: seq<ExchangeKey>)
    returns (revoke: seq<ExchangeKey>, budgets: map<string, TagBudget>)
    requires DistinctIds(keys)
    ensures forall k :: k in revoke <==> k in keys && !exists g :: g in grants && GivesTo(g, k)
    ensures forall k | k in keys :: k.id in budgets <==> exists g :: g in grants && GivesTo(g, k) && g.maxBudget.Some?
    ensures forall k | k in keys && k.id in budgets ::
              exists g :: Cheapest(grants, k, g) && budgets[k.id] == TagBudget(g.maxBudget.value, g.budgetDuration)
    ensures forall id | id in budgets :: exists k :: k in keys && k.id == id
    ensures revoke == Uncovered(grants, keys) && Ceilings(grants, keys, budgets)
  {
    revoke, budgets := Apportion(grants, keys);
    UncoveredMeans(grants, keys);
    forall k | k in keys
      ensures k.id in budgets <==> exists g :: g in grants && GivesTo(g, k) && g.maxBudget.Some?
      ensures k.id in budgets ==>
                exists g :: Cheapest(grants, k, g) && budgets[k.id] == TagBudget(g.maxBudget.value, g.budgetDuration)
    {
      CeilingMeans(grants, k, if k.id in budgets then Some(budgets[k.id]) else None);
    }
  }

  /** The loop over the keys. */
  method Apportion(grants: seq<Grant>, keys: seq<ExchangeKey>)
    returns (revoke: seq<ExchangeKey>, budgets: map<string, TagBudget>)
    requires DistinctIds(keys)
    ensures revoke == Uncovered(grants, keys)
    ensures Ceilings(grants, keys, budgets)
  {
    revoke, budgets := [], map[];
    for i := 0 to |keys|
      invariant revoke == Uncovered(grants, keys[..i])
      invariant Ceilings(grants, keys[..i], budgets)
    {
      var k := keys[i];
      assert keys[..i + 1][..i] == keys[..i];
      var covering := Covering(grants, k.owner, k.environment, k.requester);
      if |covering| == 0 {
        CeilingsSnoc(grants, keys, i, budgets, None);
        revoke := revoke + [k];
      } else {
        var b := Budget(covering);
        CeilingsSnoc(grants, keys, i, budgets, b);
        if b.Some? {
          budgets := budgets[k.id := b.value];
        }
      }
    }
    assert keys[..|keys|] == keys;
  }

  /** The exchange resolver's grant test: the grants listed for the owner must cover the key. */
  predicate ResolverAllows(grants: seq<Grant>, k: ExchangeKey) {
    CoveringOf(ForIdentity(grants, k.owner), k.owner, k.environment, k.requester) != []
  }

  function ForIdentity(grants: seq<Grant>, identity: string): (r: seq<Grant>) {
    if grants == [] then []
    else
      var r := ForIdentity(grants[..|grants| - 1], identity);
      if grants[|grants| - 1].identity == identity then r + [grants[|grants| - 1]] else r
  }

  lemma {:induction false} ForIdentityCovering(grants: seq<Grant>, identity: string, env: string, requester: string)
    ensures CoveringOf(ForIdentity(grants, identity), identity, env, requester) ==
              CoveringOf(grants, identity, env, requester)
  {
    if grants != [] {
      var init, last := grants[..|grants| - 1], grants[|grants| - 1];
      ForIdentityCovering(init, identity, env, requester);
      var f := ForIdentity(init, identity);
      if last.identity == identity {
        assert (f + [last])[..|f|] == f;
      }
    }
  }

  /** Plan revokes exactly the keys the resolver refuses for lack of a grant; the ceilings
      belong to the others, so the two results split the keys. */
  lemma {:induction false} PlanMatchesResolver(grants: seq<Grant>, keys: seq<ExchangeKey>)
    ensures forall k :: k in Uncovered(grants, keys) <==> k in keys && !ResolverAllows(grants, k)
  {
    if keys != [] {
      var init, last := keys[..|keys| - 1], keys[|keys| - 1];
      PlanMatchesResolver(grants, init);
      ForIdentityCovering(grants, last.owner, last.environment, last.requester);
      assert forall k :: k in keys <==> k in init || k == last;
    }
  }

  lemma RevokedHasNoCeiling(grants: seq<Grant>, keys: seq<ExchangeKey>, budgets: map<string, TagBudget>, k: ExchangeKey)
    requires Ceilings(grants, keys, budgets) && k in keys && k in Uncovered(grants, keys)
    ensures k.id !in budgets
  {
    PlanMatchesResolver(grants, keys);
    ForIdentityCovering(grants, k.owner, k.environment, k.requester);
    assert SetOf(GrantsFor(grants, k)) == {};
  }

  /** Reordering or repeating grants changes nothing. */
  lemma PlanIgnoresOrder(g1: seq<Grant>, g2: seq<Grant>, keys: seq<ExchangeKey>,
                         b1: map<string, TagBudget>, b2: map<string, TagBudget>)
    requires SetOf(g1) == SetOf(g2)
    requires Ceilings(g1, keys, b1) && Ceilings(g2, keys, b2)
    ensures b1 == b2
    ensures forall k :: k in Uncovered(g1, keys) <==> k in Uncovered(g2, keys)
  {
    forall k | k in keys
      ensures SetOf(GrantsFor(g1, k)) == SetOf(GrantsFor(g2, k))
      ensures (if k.id in b1 then Some(b1[k.id]) else None) == (if k.id in b2 then Some(b2[k.id]) else None)
    {
      SameCover(g1, g2, k);
      LeastBudgetUnique(SetOf(GrantsFor(g1, k)), if k.id in b1 then Some(b1[k.id]) else None,
                        if k.id in b2 then Some(b2[k.id]) else None);
    }
    assert b1.Keys == b2.Keys;
    UncoveredIff(g1, keys);
    UncoveredIff(g2, keys);
  }

  lemma SameCover(g1: seq<Grant>, g2: seq<Grant>, k: ExchangeKey)
    requires SetOf(g1) == SetOf(g2)
    ensures SetOf(GrantsFor(g1, k)) == SetOf(GrantsFor(g2, k))
  {
    CoveringMembers(g1, k.owner, k.environment, k.requester);
    CoveringMembers(g2, k.owner, k.environment, k.requester);
    assert forall g :: g in g1 <==> g in SetOf(g1);
    assert forall g :: g in g2 <==> g in SetOf(g2);
  }

  lemma {:induction false} UncoveredIff(grants: seq<Grant>, keys: seq<ExchangeKey>)
    ensures forall k :: k in Uncovered(grants, keys) <==> k in keys && SetOf(GrantsFor(grants, k)) == {}
  {
    if keys != [] {
      var init, last := keys[..|keys| - 1], keys[|keys| - 1];
      UncoveredIff(grants, init);
      var c := GrantsFor(grants, last);
      if c != [] {
        assert c[0] in SetOf(c);
      }
      assert forall k :: k in keys <==> k in init || k == last;
    }
  }

  /** Adding grants never revokes a key that was kept, never removes a ceiling and never
      raises one. */
  lemma MoreGrantsNeverHurt(grants: seq<Grant>, more: seq<Grant>, keys: seq<ExchangeKey>,
                            b1: map<string, TagBudget>, b2: map<string, TagBudget>, k: ExchangeKey)
    requires Ceilings(grants, keys, b1) && Ceilings(grants + more, keys, b2) && k in keys
    ensures k in Uncovered(grants + more, keys) ==> k in Uncovered(grants, keys)
    ensures k.id in b1 ==> k.id in b2 && b2[k.id].maxBudget <= b1[k.id].maxBudget
  {
    var all := grants + more;
    CoveringMembers(grants, k.owner, k.environment, k.requester);
    CoveringMembers(all, k.owner, k.environment, k.requester);
    UncoveredIff(grants, keys);
    UncoveredIff(all, keys);
    var s1, s2 := SetOf(GrantsFor(grants, k)), SetOf(GrantsFor(all, k));
    assert s1 <= s2;
    if k.id in b1 {
      var g :| IsLeast(s1, g) && b1[k.id] == TagBudget(g.maxBudget.value, g.budgetDuration);
      assert g in s2;
      assert IsLeastBudget(s2, if k.id in b2 then Some(b2[k.id]) else None);
      var h :| IsLeast(s2, h) && b2[k.id] == TagBudget(h.maxBudget.value, h.budgetDuration);
      assert !BudgetLess(g, h);
    }
  }
}
