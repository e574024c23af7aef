/** Membership and round-robin selection of `src/consumer_group.py`. */
module Groups {

  import opened Common
  import opened Order
  import opened Dicts

  // ---------- Division ----------

  lemma DivUnique(x: nat, q: int, r: nat, n: int)
    requires r < n && x == q * n + r
    ensures x / n == q && x % n == r
  {
    var d := q - x / n;
    assert x == (x / n) * n + x % n;
    assert d * n == x % n - r;
    assert d >= 1 ==> d * n >= n;
    assert d <= -1 ==> d * n <= -n;
  }

  lemma SmallMod(x: nat, n: nat)
    requires x < n
    ensures x % n == x
  {
    DivUnique(x, 0, x, n);
  }

  lemma NextMod(x: nat, n: nat)
    requires n > 0
    ensures (x + 1) % n == if x % n + 1 == n then 0 else x % n + 1
  {
    var q, r := x / n, x % n;
    assert x == q * n + r;
    if r + 1 < n {
      DivUnique(x + 1, q, r + 1, n);
    } else {
      assert x + 1 == (q + 1) * n + 0;
      DivUnique(x + 1, q + 1, 0, n);
    }
  }

  // ---------- Round robin ----------

  /** One selection from the sorted members and the stored index: who, and the index stored next. */
  function Pick(members: seq<string>, index: nat): (string, nat)
    requires members != []
  {
    (members[index % |members|], (index + 1) % |members|)
  }

  /** `k` selections in a row, with the index left behind. */
  function Picks(members: seq<string>, index: nat, k: nat): (r: (seq<string>, nat))
    requires members != []
    ensures |r.0| == k
  {
    if k == 0 then ([], index)
    else
      var (picked, i) := Picks(members, index, k - 1);
      var (who, i') := Pick(members, i);
      (picked + [who], i')
  }

  /** Position `i`, moved on `r <= n` places around a circle of `n`. */
  function Around(i: nat, r: nat, n: nat): nat {
    if i + r < n then i + r else i + r - n
  }

  /** How far `j` lies ahead of `i` on the circle. */
  function Ahead(i: nat, j: nat, n: nat): int {
    if j >= i then j - i else j - i + n
  }

  lemma PickAround(members: seq<string>, index: nat, i: nat, r: nat)
    requires i < |members| && r < |members| && index % |members| == Around(i, r, |members|)
    ensures Pick(members, index).0 == members[Around(i, r, |members|)]
    ensures Pick(members, index).1 % |members| ==
            if r + 1 == |members| then i else Around(i, r + 1, |members|)
  {
    NextMod(index, |members|);
    SmallMod((index + 1) % |members|, |members|);
  }

  lemma CountSnoc(picked: seq<string>, who: string, m: string)
    ensures multiset(picked + [who])[m] == multiset(picked)[m] + (if who == m then 1 else 0)
  {
  }

  lemma OneMore(members: seq<string>, index: nat, k: nat)
    requires members != []
    ensures var (picked, i) := Picks(members, index, k);
            Picks(members, index, k + 1) == (picked + [Pick(members, i).0], Pick(members, i).1)
  {
  }

  /** After `q` whole rounds and `r` selections more, each member has been selected `q` times, and once more if it
      lies less than `r` places ahead of the stored index. */
  lemma {:induction false} PicksCount(members: seq<string>, index: nat, q: nat, r: nat, j: nat)
    requires NoDup(members) && j < |members| && r < |members|
    ensures var n := |members|;
            var i := index % n;
            var (picked, after) := Picks(members, index, q * n + r);
            && after % n == Around(i, r, n)
            && multiset(picked)[members[j]] == q + (if Ahead(i, j, n) < r then 1 else 0)
    decreases q, r
  {
    hide Picks, Pick;
    var n := |members|;
    var i := index % n;
    if r > 0 {
      PicksCount(members, index, q, r - 1, j);
      PicksCountStep(members, index, q * n + r - 1, i, r - 1, j);
    } else if q > 0 {
      PicksCount(members, index, q - 1, n - 1, j);
      assert (q - 1) * n + (n - 1) == q * n - 1;
      PicksCountStep(members, index, q * n - 1, i, n - 1, j);
    } else {
      PicksNone(members, index);
    }
  }

  lemma PicksNone(members: seq<string>, index: nat)
    requires members != []
    ensures Picks(members, index, 0 * |members| + 0) == ([], index)
  {
  }

  lemma PicksCountStep(members: seq<string>, index: nat, k: nat, i: nat, r: nat, j: nat)
    requires NoDup(members) && j < |members| && r < |members| && i < |members|
    requires Picks(members, index, k).1 % |members| == Around(i, r, |members|)
    ensures var n := |members|;
            && Picks(members, index, k + 1).1 % n == (if r + 1 == n then i else Around(i, r + 1, n))
            && multiset(Picks(members, index, k + 1).0)[members[j]] ==
               multiset(Picks(members, index, k).0)[members[j]] + (if Ahead(i, j, n) == r then 1 else 0)
  {
    hide Picks, Pick;
    OneMore(members, index, k);
    PickAround(members, Picks(members, index, k).1, i, r);
    CountSnoc(Picks(members, index, k).0, members[Around(i, r, |members|)], members[j]);
  }

  /** Fairness: in any `k` selections from a fixed group, starting from any stored index, each member is selected
      `k / n` times, or once more when `n` does not divide `k`. */
  lemma RoundRobinFair(members: seq<string>, index: nat, k: nat, who: string)
    requires NoDup(members) && who in members
    ensures var n := |members|;
            var times := multiset(Picks(members, index, k).0)[who];
            times == k / n || (k % n != 0 && times == k / n + 1)
  {
    hide Picks;
    Divide(k, |members|);
    RoundsAndRest(members, index, k / |members|, k % |members|, who);
  }

  lemma Divide(k: nat, n: nat)
    requires n > 0
    ensures (k / n) * n + k % n == k && 0 <= k / n && 0 <= k % n < n
  {
  }

  /** The same with the quotient and the remainder given. */
  lemma RoundsAndRest(members: seq<string>, index: nat, q: nat, r: nat, who: string)
    requires NoDup(members) && who in members && r < |members|
    ensures var times := multiset(Picks(members, index, q * |members| + r).0)[who];
            times == q || (r != 0 && times == q + 1)
  {
    hide Picks, Around, Ahead;
    var j :| 0 <= j < |members| && members[j] == who;
    PicksCount(members, index, q, r, j);
    AheadInRange(index % |members|, j, |members|);
  }

  lemma AheadInRange(i: nat, j: nat, n: nat)
    requires i < n && j < n
    ensures 0 <= Ahead(i, j, n) < n
  {
  }

  /** Any `n` consecutive selections select each of the `n` members exactly once. */
  lemma EachOnce(members: seq<string>, index: nat, who: string)
    requires NoDup(members) && who in members
    ensures multiset(Picks(members, index, |members|).0)[who] == 1
  {
    hide Picks, Around;
    var j :| 0 <= j < |members| && members[j] == who;
    PicksCount(members, index, 1, 0, j);
    SmallMod(0, |members|);
    assert 1 * |members| + 0 == |members|;
    AheadInRange(index % |members|, j, |members|);
  }

  // ---------- The manager ----------

  datatype GroupError = GroupExists | GroupNotFound | GroupHasConsumers

  /** The groups, in creation order, that have `consumer` among their members. */
  function GroupsOf(keys: seq<string>, groups: map<string, set<string>>, consumer: string): seq<string> {
    if keys == [] then []
    else
      var n := |keys| - 1;
      GroupsOf(keys[..n], groups, consumer) +
      if keys[n] in groups && consumer in groups[keys[n]] then [keys[n]] else []
  }

  /** The groups of a consumer are listed in the order of all groups. */
  lemma {:induction false} GroupsOfAppend(a: seq<string>, b: seq<string>, groups: map<string, set<string>>,
                                          consumer: string)
    ensures GroupsOf(a + b, groups, consumer) == GroupsOf(a, groups, consumer) + GroupsOf(b, groups, consumer)
  {
    if b == [] {
      assert a + b == a;
    } else {
      var n := |b| - 1;
      assert (a + b)[..|a| + n] == a + b[..n];
      GroupsOfAppend(a, b[..n], groups, consumer);
    }
  }

  /** Each is listed exactly when the consumer is in it. */
  lemma GroupsOfOne(g: string, groups: map<string, set<string>>, consumer: string)
    requires g in groups
    ensures GroupsOf([g], groups, consumer) == if consumer in groups[g] then [g] else []
  {
    assert [g][..0] == [];
  }

  /** `consumer` leaves one group. */
  function Expel(d: Dict<string, set<string>>, g: string, consumer: string): Dict<string, set<string>> {
    if g in d.vals && consumer in d.vals[g] then d.Put(g, d.vals[g] - {consumer}) else d
  }

  lemma ExpelShape(d: Dict<string, set<string>>, g: string, consumer: string)
    requires d.Valid() && g in d.vals
    ensures var e := Expel(d, g, consumer);
            e.Valid() && e.keys == d.keys && e.vals == d.vals[g := d.vals[g] - {consumer}]
  {
    if consumer !in d.vals[g] {
      assert d.vals[g] - {consumer} == d.vals[g];
    }
  }

  /** The memberships once `consumer` has left the first `n` groups. */
  function Evict(d: Dict<string, set<string>>, consumer: string, n: nat): Dict<string, set<string>>
    requires n <= |d.keys|
  {
    if n == 0 then d else Expel(Evict(d, consumer, n - 1), d.keys[n - 1], consumer)
  }

  /** The groups and their order stay; those reached lose `consumer` and nobody else. */
  lemma {:induction false} EvictExact(d: Dict<string, set<string>>, consumer: string, n: nat)
    requires d.Valid() && n <= |d.keys|
    ensures var e := Evict(d, consumer, n);
            && e.Valid() && e.keys == d.keys && e.vals.Keys == d.vals.Keys
            && (forall g :: g in d.vals ==> e.vals[g] == if g in d.keys[..n] then d.vals[g] - {consumer} else d.vals[g])
  {
    hide Expel;
    if n > 0 {
      EvictExact(d, consumer, n - 1);
      assert d.keys[..n] == d.keys[..n - 1] + [d.keys[n - 1]];
      KeyIsNew(d, n - 1);
      ExpelShape(Evict(d, consumer, n - 1), d.keys[n - 1], consumer);
    }
  }

  lemma KeyIsNew(d: Dict<string, set<string>>, i: nat)
    requires d.Valid() && i < |d.keys|
    ensures d.keys[i] in d.vals && d.keys[i] !in d.keys[..i]
  {
    assert d.keys[i] in d.keys;
  }

  /** A group not reached yet is as it was. */
  lemma EvictHere(d: Dict<string, set<string>>, consumer: string, i: nat)
    requires d.Valid() && i < |d.keys|
    ensures d.keys[i] in d.vals && d.keys[i] in Evict(d, consumer, i).vals
    ensures Evict(d, consumer, i).vals[d.keys[i]] == d.vals[d.keys[i]]
  {
    EvictExact(d, consumer, i);
    KeyIsNew(d, i);
  }

  lemma EvictShape(d: Dict<string, set<string>>, consumer: string, n: nat)
    requires d.Valid() && n <= |d.keys|
    ensures Evict(d, consumer, n).Valid() && Evict(d, consumer, n).vals.Keys == d.vals.Keys
  {
    EvictExact(d, consumer, n);
  }

  lemma NoGroups(groups: map<string, set<string>>, consumer: string)
    ensures GroupsOf([], groups, consumer) == []
  {
  }

  lemma GroupsOfNext(d: Dict<string, set<string>>, consumer: string, i: nat)
    requires d.Valid() && i < |d.keys|
    ensures d.keys[i] in d.vals
    ensures GroupsOf(d.keys[..i + 1], d.vals, consumer) ==
            GroupsOf(d.keys[..i], d.vals, consumer) + (if consumer in d.vals[d.keys[i]] then [d.keys[i]] else [])
  {
    KeyIsNew(d, i);
    assert d.keys[..i + 1][..i] == d.keys[..i];
  }

  class ConsumerGroupManager {
    var groups: Dict<string, set<string>>
    var targets: map<string, string>
    var nextIndex: map<string, nat>
    var heartbeats: map<string, real>

    ghost predicate Valid()
      reads this
    {
      groups.Valid() && targets.Keys == groups.vals.Keys
    }

    constructor ()
      ensures Valid() && groups == Empty() && nextIndex == map[] && heartbeats == map[]
    {
      groups := Empty();
      targets, nextIndex, heartbeats := map[], map[], map[];
    }

    method CreateGroup(target: string, name: string) returns (r: Result<(), GroupError>)
      requires Valid()
      modifies this
      ensures Valid() && heartbeats == old(heartbeats)
      ensures name in old(groups).vals ==> r == Err(GroupExists) && unchanged(this)
      ensures name !in old(groups).vals ==>
                && r == Ok(()) && groups == old(groups).Put(name, {})
                && targets == old(targets)[name := target] && nextIndex == old(nextIndex)[name := 0]
    {
      if groups.Has(name) {
        return Err(GroupExists);
      }
      groups := groups.Put(name, {});
      targets := targets[name := target];
      nextIndex := nextIndex[name := 0];
      r := Ok(());
    }

    method DeleteGroup(name: string) returns (r: Result<(), GroupError>)
      requires Valid()
      modifies this
      ensures Valid()
      ensures r == if name !in old(groups).vals then Err(GroupNotFound)
                   else if old(groups).vals[name] != {} then Err(GroupHasConsumers) else Ok(())
      ensures r.Err? ==> unchanged(this)
      ensures r.Ok? ==> groups == old(groups).Pop(name) && targets == old(targets) - {name} &&
                        nextIndex == old(nextIndex) - {name} && heartbeats == old(heartbeats)
    {
      if !groups.Has(name) {
        return Err(GroupNotFound);
      }
      if groups.vals[name] != {} {
        return Err(GroupHasConsumers);
      }
      PopValid(groups, name);
      groups := groups.Pop(name);
      targets := targets - {name};
      nextIndex := nextIndex - {name};
      r := Ok(());
    }

    method JoinGroup(name: string, consumer: string, now: real) returns (r: Result<(), GroupError>)
      requires Valid()
      modifies this`groups, this`heartbeats
      ensures Valid()
      ensures name !in old(groups).vals ==> r == Err(GroupNotFound) && unchanged(this)
      ensures name in old(groups).vals ==>
                && r == Ok(())
                && groups == old(groups).Put(name, old(groups).vals[name] + {consumer})
                && heartbeats == old(heartbeats)[consumer := now]
    {
      if !groups.Has(name) {
        return Err(GroupNotFound);
      }
      groups := groups.Put(name, groups.vals[name] + {consumer});
      heartbeats := heartbeats[consumer := now];
      r := Ok(());
    }

    method LeaveGroup(name: string, consumer: string) returns (r: Result<(), GroupError>)
      requires Valid()
      modifies this`groups
      ensures Valid()
      ensures name !in old(groups).vals ==> r == Err(GroupNotFound) && unchanged(this)
      ensures name in old(groups).vals ==>
                r == Ok(()) && groups == old(groups).Put(name, old(groups).vals[name] - {consumer})
    {
      if !groups.Has(name) {
        return Err(GroupNotFound);
      }
      groups := groups.Put(name, groups.vals[name] - {consumer});
      r := Ok(());
    }

    /** The consumer leaves every group; the names of those it was in, in creation order. */
    method RemoveConsumerFromAllGroups(consumer: string) returns (removed: seq<string>)
      requires Valid()
      modifies this`groups, this`heartbeats
      ensures Valid() && heartbeats == old(heartbeats) - {consumer}
      ensures groups == Evict(old(groups), consumer, |old(groups).keys|)
      ensures removed == GroupsOf(old(groups).keys, old(groups).vals, consumer)
    {
      hide GroupsOf;
      heartbeats := heartbeats - {consumer};
      removed := [];
      assert GroupsOf([], groups.vals, consumer) == [] by {
        NoGroups(groups.vals, consumer);
      }
      assert groups.keys[..0] == [];
      ghost var before := groups;
      var keys := groups.keys;
      var i := 0;
      while i < |keys|
        invariant heartbeats == old(heartbeats) - {consumer}
        invariant 0 <= i <= |keys| && groups == Evict(before, consumer, i)
        invariant removed == GroupsOf(keys[..i], before.vals, consumer)
      {
        var g := keys[i];
        EvictHere(before, consumer, i);
        GroupsOfNext(before, consumer, i);
        if consumer in groups.vals[g] {
          groups := groups.Put(g, groups.vals[g] - {consumer});
          removed := removed + [g];
        }
        i := i + 1;
      }
      assert keys[..i] == keys;
      EvictShape(before, consumer, |keys|);
    }

    /** The next consumer of a group in turn: `Pick` on its sorted members and stored index. */
    method NextConsumer(name: string) returns (r: Option<string>)
      requires Valid()
      modifies this`nextIndex
      ensures Valid()
      ensures name !in groups.vals || groups.vals[name] == {} ==> r == None && nextIndex == old(nextIndex)
      ensures name in groups.vals && groups.vals[name] != {} ==>
                var members := Listing(groups.vals[name]);
                var index := if name in old(nextIndex) then old(nextIndex)[name] else 0;
                && members != []
                && r == Some(Pick(members, index).0)
                && nextIndex == old(nextIndex)[name := Pick(members, index).1]
    {
      if !groups.Has(name) {
        return None;
      }
      var members := groups.vals[name];
      if members == {} {
        return None;
      }
      var index := if name in nextIndex then nextIndex[name] else 0;
      var sorted := SortSet(members);
      SortedUnique(sorted, Listing(members));
      var someone :| someone in members;
      assert someone in sorted;
      r := Some(sorted[index % |sorted|]);
      nextIndex := nextIndex[name := (index + 1) % |sorted|];
    }
  }

  /** A consumer that has left every group is in none, and selection from any group finds only members. */
  lemma EvictedNeverPicked(d: Dict<string, set<string>>, consumer: string, g: string, index: nat)
    requires d.Valid() && g in d.vals
    ensures var e := Evict(d, consumer, |d.keys|);
            && g in e.vals && e.vals[g] == d.vals[g] - {consumer}
            && (e.vals[g] != {} ==>
                  Listing(e.vals[g]) != [] && Pick(Listing(e.vals[g]), index).0 in e.vals[g] - {consumer})
  {
    EvictExact(d, consumer, |d.keys|);
    assert d.keys[..|d.keys|] == d.keys;
    var members := Evict(d, consumer, |d.keys|).vals[g];
    if members != {} {
      var someone :| someone in members;
      assert someone in Listing(members);
      assert Pick(Listing(members), index).0 in Listing(members);
    }
  }
}
