/**
  The ServiceDiscovery component: the query ledger (three maps keyed by query
  id), the item registry (items per service type), the resolution state
  machine driven by resolver results, and the reconciliation of the tracked
  service types against the configured queries.
*/
module Discovery {
  import opened Sequences
  import opened ServiceItems
  import opened DiscoveryFilter
  import opened QueryLedger

  /** One configured ServiceDiscoveryQuery: the service type it asks for, its record type and its own filter. */
  datatype Query = Query(serviceType: string, queryType: RecordType, filter: Filter)

  /** One answer record delivered by the resolver transport. */
  datatype Record = Record(name: string, ttl: int, texts: seq<string>, port: int, address: string)

  /** Index of the first ".\_" in `s`, or -1. */
  function SeparatorIndex(s: string): (k: int)
    ensures -1 <= k < |s|
    ensures k >= 0 ==> k + 1 < |s| && s[k] == '.' && s[k + 1] == '_'
    ensures k >= 0 ==> forall i :: 0 <= i < k ==> !(s[i] == '.' && s[i + 1] == '_')
    ensures k < 0 ==> forall i :: 0 <= i < |s| - 1 ==> !(s[i] == '.' && s[i + 1] == '_')
  {
    if |s| < 2 then -1
    else if s[0] == '.' && s[1] == '_' then 0
    else
      var k := SeparatorIndex(s[1..]);
      if k < 0 then -1 else k + 1
  }

  /**
    The instance name of a PTR target: the part before the first ".\_". The
    target is a byte array, and taking a negative-length prefix of a byte array
    gives the empty array, so a target without ".\_" names the empty instance.
  */
  function InstanceName(s: string): string
  {
    var k := SeparatorIndex(s);
    if k < 0 then "" else s[..k]
  }

  /**
    The instance name is a prefix of the target, free of ".\_"; it ends where
    the first ".\_" starts, and it is empty when the target has none.
  */
  lemma InstanceNameProperties(s: string)
    ensures var n := InstanceName(s);
      && n <= s
      && (forall i :: 0 <= i < |n| - 1 ==> !(n[i] == '.' && n[i + 1] == '_'))
      && ((SeparatorIndex(s) < 0 && n == "")
          || (SeparatorIndex(s) == |n| && |n| + 1 < |s| && s[|n|] == '.' && s[|n| + 1] == '_'))
  {
  }

  /** A target without ".\_" names the empty instance, whatever else it holds. */
  lemma InstanceNameWithoutSeparator()
    ensures InstanceName("mill") == ""
  {
    assert SeparatorIndex("mill") < 0;
  }

  /** The first ".\_" determines the instance name; dots elsewhere do not matter. */
  lemma InstanceNameAt(s: string, k: nat)
    requires k + 1 < |s| && s[k] == '.' && s[k + 1] == '_'
    requires forall i :: 0 <= i < k ==> !(s[i] == '.' && s[i + 1] == '_')
    ensures InstanceName(s) == s[..k]
  {
    var j := SeparatorIndex(s);
    assert j >= 0;
    assert j <= k;
  }

  /** An instance name may itself contain dots; it ends at the first label boundary ".\_". */
  lemma InstanceNameExample()
    ensures InstanceName("mill.2._machinekit._tcp.local") == "mill.2"
  {
    var s := "mill.2._machinekit._tcp.local";
    assert s == "mill.2" + "._machinekit._tcp.local";
    InstanceNameAt(s, 6);
  }

  /**
    The state of clearItems' loop over `items` (the list of type `t`) when the
    items from position `i` on are gone: their ids are dropped and cancelled,
    and the ledger and the link hold for the shortened list.
  */
  ghost predicate Clearing(reg: map<string, seq<Item>>, types: map<string, RecordType>,
                           typeMap: map<int, RecordType>, serviceMap: map<int, string>, itemMap: map<int, ItemRef>,
                           nextId: int, typeMap0: map<int, RecordType>, itemMap0: map<int, ItemRef>,
                           cancelled0: set<int>, cancelled: set<int>, t: string, items: seq<Item>, i: int)
  {
    && 0 <= i <= |items|
    && Consistent(reg[t := items[..i]], types, typeMap, serviceMap, itemMap, nextId)
    && itemMap == itemMap0 - OwnedBy(itemMap0, t, NameSet(items[i..]))
    && typeMap == typeMap0 - OwnedBy(itemMap0, t, NameSet(items[i..]))
    && cancelled == cancelled0 + OwnedBy(itemMap0, t, NameSet(items[i..]))
  }

  /** clearItems' loop starts with nothing taken out. */
  lemma ClearingStart(reg: map<string, seq<Item>>, types: map<string, RecordType>,
                      typeMap: map<int, RecordType>, serviceMap: map<int, string>, itemMap: map<int, ItemRef>,
                      nextId: int, cancelled: set<int>, t: string)
    requires Consistent(reg, types, typeMap, serviceMap, itemMap, nextId)
    requires t in reg
    ensures Clearing(reg, types, typeMap, serviceMap, itemMap, nextId, typeMap, itemMap, cancelled, cancelled, t, reg[t], |reg[t]|)
  {
    var items := reg[t];
    assert items[..|items|] == items;
    assert reg[t := items] == reg;
    assert NameSet(items[|items|..]) == {};
    assert OwnedBy(itemMap, t, {}) == {};
  }

  /** When clearItems' loop ends, the list is empty and every id its items owned is gone. */
  lemma ClearingEnd(reg: map<string, seq<Item>>, types: map<string, RecordType>,
                    typeMap: map<int, RecordType>, serviceMap: map<int, string>, itemMap: map<int, ItemRef>,
                    nextId: int, typeMap0: map<int, RecordType>, itemMap0: map<int, ItemRef>,
                    cancelled0: set<int>, cancelled: set<int>, t: string, items: seq<Item>)
    requires Clearing(reg, types, typeMap, serviceMap, itemMap, nextId, typeMap0, itemMap0, cancelled0, cancelled, t, items, 0)
    ensures Consistent(reg[t := []], types, typeMap, serviceMap, itemMap, nextId)
    ensures var gone := OwnedBy(itemMap0, t, NameSet(items));
      itemMap == itemMap0 - gone && typeMap == typeMap0 - gone && cancelled == cancelled0 + gone
  {
    assert items[..0] == [] && items[0..] == items;
  }

  /** Taking item i out, with the ids it owns, is one step of clearItems' loop. */
  lemma ClearingStep(reg: map<string, seq<Item>>, types: map<string, RecordType>,
                     typeMap: map<int, RecordType>, serviceMap: map<int, string>, itemMap: map<int, ItemRef>,
                     nextId: int, typeMap0: map<int, RecordType>, itemMap0: map<int, ItemRef>,
                     cancelled0: set<int>, cancelled: set<int>, t: string, items: seq<Item>, i: int,
                     typeMap': map<int, RecordType>, itemMap': map<int, ItemRef>, cancelled': set<int>)
    requires 0 <= i
    requires Clearing(reg, types, typeMap, serviceMap, itemMap, nextId, typeMap0, itemMap0, cancelled0, cancelled, t, items, i + 1)
    requires var ids := Owned(itemMap, ItemRef(t, items[i].name));
      itemMap' == itemMap - ids && typeMap' == typeMap - ids && cancelled' == cancelled + ids
    ensures Clearing(reg, types, typeMap', serviceMap, itemMap', nextId, typeMap0, itemMap0, cancelled0, cancelled', t, items, i)
  {
    RemoveKeepsConsistent(reg[t := items[..i + 1]], types, typeMap, serviceMap, itemMap, nextId, t, i);
    assert items[..i + 1][..i] + items[..i + 1][i + 1..] == items[..i];
    assert reg[t := items[..i + 1]][t := items[..i]] == reg[t := items[..i]];
    assert items[i..] == [items[i]] + items[i + 1..];
    assert NameSet(items[i..]) == NameSet(items[i + 1..]) + {items[i].name};
    DropAccounts(typeMap0, itemMap0, cancelled0, t, NameSet(items[i + 1..]), items[i].name);
  }

  /**
    The state of purgeItems' loop over `items` (the list of type `t`) when the
    items from position `i` on have been through the purge cycle: `list` holds
    the untouched head and the purged tail, the ids of the evicted items are
    dropped and cancelled, and `modified` says whether anything was evicted.
  */
  ghost predicate Purging(reg: map<string, seq<Item>>, types: map<string, RecordType>,
                          typeMap: map<int, RecordType>, serviceMap: map<int, string>, itemMap: map<int, ItemRef>,
                          nextId: int, typeMap0: map<int, RecordType>, itemMap0: map<int, ItemRef>,
                          cancelled0: set<int>, cancelled: set<int>, t: string, items: seq<Item>, threshold: int,
                          i: int, list: seq<Item>, modified: bool)
  {
    && 0 <= i <= |items|
    && list == items[..i] + Purged(items[i..], threshold)
    && Consistent(reg[t := list], types, typeMap, serviceMap, itemMap, nextId)
    && itemMap == itemMap0 - OwnedBy(itemMap0, t, EvictedNames(items[i..], threshold))
    && typeMap == typeMap0 - OwnedBy(itemMap0, t, EvictedNames(items[i..], threshold))
    && cancelled == cancelled0 + OwnedBy(itemMap0, t, EvictedNames(items[i..], threshold))
    && modified == AnyEvicted(items[i..], threshold)
  }

  /** purgeItems' loop starts with nothing purged. */
  lemma PurgingStart(reg: map<string, seq<Item>>, types: map<string, RecordType>,
                     typeMap: map<int, RecordType>, serviceMap: map<int, string>, itemMap: map<int, ItemRef>,
                     nextId: int, cancelled: set<int>, t: string, threshold: int)
    requires Consistent(reg, types, typeMap, serviceMap, itemMap, nextId)
    requires t in reg
    ensures Purging(reg, types, typeMap, serviceMap, itemMap, nextId, typeMap, itemMap, cancelled, cancelled,
                    t, reg[t], threshold, |reg[t]|, reg[t], false)
  {
    var items := reg[t];
    assert items[..|items|] + Purged(items[|items|..], threshold) == items;
    assert reg[t := items] == reg;
    assert EvictedNames(items[|items|..], threshold) == {};
    assert OwnedBy(itemMap, t, {}) == {};
  }

  /** The purge cycle evicts item i: it leaves the list and its ids are dropped and cancelled. */
  lemma PurgingEvict(reg: map<string, seq<Item>>, types: map<string, RecordType>,
                     typeMap: map<int, RecordType>, serviceMap: map<int, string>, itemMap: map<int, ItemRef>,
                     nextId: int, typeMap0: map<int, RecordType>, itemMap0: map<int, ItemRef>,
                     cancelled0: set<int>, cancelled: set<int>, t: string, items: seq<Item>, threshold: int,
                     i: int, list: seq<Item>, modified: bool,
                     typeMap': map<int, RecordType>, itemMap': map<int, ItemRef>, cancelled': set<int>)
    requires 0 <= i
    requires Purging(reg, types, typeMap, serviceMap, itemMap, nextId, typeMap0, itemMap0, cancelled0, cancelled,
                     t, items, threshold, i + 1, list, modified)
    requires Evicted(items[i], threshold)
    requires var ids := Owned(itemMap, ItemRef(t, items[i].name));
      itemMap' == itemMap - ids && typeMap' == typeMap - ids && cancelled' == cancelled + ids
    ensures Purging(reg, types, typeMap', serviceMap, itemMap', nextId, typeMap0, itemMap0, cancelled0, cancelled',
                    t, items, threshold, i, list[..i] + list[i + 1..], true)
  {
    PurgedEvictStep(items, i, threshold);
    var tail := Purged(items[i + 1..], threshold);
    assert list[..i] + list[i + 1..] == items[..i] + tail;
    assert list[i] == items[i];
    RemoveKeepsConsistent(reg[t := list], types, typeMap, serviceMap, itemMap, nextId, t, i);
    assert reg[t := list][t := list[..i] + list[i + 1..]] == reg[t := list[..i] + list[i + 1..]];
    DropAccounts(typeMap0, itemMap0, cancelled0, t, EvictedNames(items[i + 1..], threshold), items[i].name);
  }

  /** The purge cycle keeps item i: it is aged in place and the ledger is untouched. */
  lemma PurgingAge(reg: map<string, seq<Item>>, types: map<string, RecordType>,
                   typeMap: map<int, RecordType>, serviceMap: map<int, string>, itemMap: map<int, ItemRef>,
                   nextId: int, typeMap0: map<int, RecordType>, itemMap0: map<int, ItemRef>,
                   cancelled0: set<int>, cancelled: set<int>, t: string, items: seq<Item>, threshold: int,
                   i: int, list: seq<Item>, modified: bool)
    requires 0 <= i
    requires Purging(reg, types, typeMap, serviceMap, itemMap, nextId, typeMap0, itemMap0, cancelled0, cancelled,
                     t, items, threshold, i + 1, list, modified)
    requires !Evicted(items[i], threshold)
    ensures Purging(reg, types, typeMap, serviceMap, itemMap, nextId, typeMap0, itemMap0, cancelled0, cancelled,
                    t, items, threshold, i, list[i := Aged(items[i])], modified)
  {
    PurgedAgeStep(items, i, threshold);
    var tail := Purged(items[i + 1..], threshold);
    assert list[i := Aged(items[i])] == items[..i] + [Aged(items[i])] + tail;
    assert list[i] == items[i];
    assert list[i].serviceType == t by {
      assert WellFormedList(reg[t := list][t], t);
    }
    ReplaceKeepsConsistent(reg[t := list], types, typeMap, serviceMap, itemMap, nextId, t, i, Aged(items[i]));
    assert reg[t := list][t := list[i := Aged(items[i])]] == reg[t := list[i := Aged(items[i])]];
  }

  /** When purgeItems' loop ends, the list is the purged list and the ids of every evicted item are gone. */
  lemma PurgingEnd(reg: map<string, seq<Item>>, types: map<string, RecordType>,
                   typeMap: map<int, RecordType>, serviceMap: map<int, string>, itemMap: map<int, ItemRef>,
                   nextId: int, typeMap0: map<int, RecordType>, itemMap0: map<int, ItemRef>,
                   cancelled0: set<int>, cancelled: set<int>, t: string, items: seq<Item>, threshold: int,
                   list: seq<Item>, modified: bool)
    requires Purging(reg, types, typeMap, serviceMap, itemMap, nextId, typeMap0, itemMap0, cancelled0, cancelled,
                     t, items, threshold, 0, list, modified)
    ensures list == Purged(items, threshold)
    ensures Consistent(reg[t := list], types, typeMap, serviceMap, itemMap, nextId)
    ensures var gone := OwnedBy(itemMap0, t, EvictedNames(items, threshold));
      itemMap == itemMap0 - gone && typeMap == typeMap0 - gone && cancelled == cancelled0 + gone
    ensures modified == AnyEvicted(items, threshold)
  {
    assert items[..0] == [] && items[0..] == items;
  }

  /** The registry with the list of type `t` emptied (no change when `t` is not registered). */
  function ClearedRegistry(reg: map<string, seq<Item>>, t: string): map<string, seq<Item>>
  {
    if t in reg then reg[t := []] else reg
  }

  /** The follow-up query ids clearing type `t` cancels: those of all its items. */
  function ClearGone(reg: map<string, seq<Item>>, itemMap: map<int, ItemRef>, t: string): set<int>
  {
    if t in reg then OwnedBy(itemMap, t, NameSet(reg[t])) else {}
  }

  /** The registry after one purge cycle over the items of type `t` (no change when `t` is not registered). */
  function PurgedRegistry(reg: map<string, seq<Item>>, t: string, threshold: int): map<string, seq<Item>>
  {
    if t in reg then reg[t := Purged(reg[t], threshold)] else reg
  }

  /** The follow-up query ids the purge cycle over type `t` cancels: those of the evicted items. */
  function PurgeGone(reg: map<string, seq<Item>>, itemMap: map<int, ItemRef>, t: string, threshold: int): set<int>
  {
    if t in reg then OwnedBy(itemMap, t, EvictedNames(reg[t], threshold)) else {}
  }

  /** The purge cycle over type `t` evicts at least one item. */
  predicate PurgeEvicts(reg: map<string, seq<Item>>, t: string, threshold: int)
  {
    t in reg && AnyEvicted(reg[t], threshold)
  }

  /**
    The state of stopQueries' walk over the registered types of `reg0` when
    the types in `pending` are still to be stopped: the top-level queries of
    the others are gone, and the lists of those whose query ran are empty.
  */
  ghost predicate Stopping(reg0: map<string, seq<Item>>, serviceMap0: map<int, string>,
                           reg: map<string, seq<Item>>, serviceMap: map<int, string>, pending: set<string>)
  {
    && pending <= reg0.Keys && reg.Keys == reg0.Keys
    && serviceMap == serviceMap0 - StoppedQueries(serviceMap0, reg0.Keys - pending)
    && forall u :: u in reg ==> reg[u] == if u !in pending && TopQueries(serviceMap0, u) != {} then [] else reg0[u]
  }

  lemma StoppingStart(reg: map<string, seq<Item>>, serviceMap: map<int, string>)
    ensures Stopping(reg, serviceMap, reg, serviceMap, reg.Keys)
  {
    assert StoppedQueries(serviceMap, reg.Keys - reg.Keys) == {};
  }

  /** Stopping type `t` (its query, if it runs, and its list) advances stopQueries' walk by one type. */
  lemma StoppingStep(reg0: map<string, seq<Item>>, serviceMap0: map<int, string>,
                     reg: map<string, seq<Item>>, serviceMap: map<int, string>, pending: set<string>, t: string,
                     reg': map<string, seq<Item>>, serviceMap': map<int, string>)
    requires Stopping(reg0, serviceMap0, reg, serviceMap, pending) && t in pending
    requires serviceMap' == serviceMap - TopQueries(serviceMap, t)
    requires reg' == if TopQueries(serviceMap, t) != {} then ClearedRegistry(reg, t) else reg
    ensures Stopping(reg0, serviceMap0, reg', serviceMap', pending - {t})
    ensures TopQueries(serviceMap, t) == TopQueries(serviceMap0, t)
  {
    var done := reg0.Keys - pending;
    assert TopQueries(serviceMap, t) == TopQueries(serviceMap0, t);
    assert reg0.Keys - (pending - {t}) == done + {t};
    assert StoppedQueries(serviceMap0, done) + TopQueries(serviceMap0, t) == StoppedQueries(serviceMap0, done + {t});
  }

  /** When stopQueries' walk ends, no registered type has a top-level query any more. */
  lemma StoppingEnd(reg0: map<string, seq<Item>>, serviceMap0: map<int, string>,
                    reg: map<string, seq<Item>>, serviceMap: map<int, string>)
    requires Stopping(reg0, serviceMap0, reg, serviceMap, {})
    ensures serviceMap == serviceMap0 - StoppedQueries(serviceMap0, reg0.Keys)
    ensures reg.Keys == reg0.Keys
    ensures forall u :: u in reg ==> reg[u] == if TopQueries(serviceMap0, u) != {} then [] else reg0[u]
    ensures forall u :: u in reg ==> TopQueries(serviceMap, u) == {}
  {
    assert reg0.Keys - {} == reg0.Keys;
  }

  /**
    The state of unicastLookup's walk over the registered types of `reg0`
    when the types in `pending` are still to be refreshed: the others went
    through a purge cycle when their query ran, and each type keeps or lacks
    a top-level query as before.
  */
  ghost predicate Refreshing(reg0: map<string, seq<Item>>, serviceMap0: map<int, string>, threshold: int,
                             reg: map<string, seq<Item>>, serviceMap: map<int, string>, pending: set<string>)
  {
    && pending <= reg0.Keys && reg.Keys == reg0.Keys
    && (forall u :: u in reg ==>
          reg[u] == if u !in pending && TopQueries(serviceMap0, u) != {} then Purged(reg0[u], threshold) else reg0[u])
    && (forall u :: u in pending ==> TopQueries(serviceMap, u) == TopQueries(serviceMap0, u))
    && (forall u :: u in reg0 && u !in pending ==> (TopQueries(serviceMap, u) == {} <==> TopQueries(serviceMap0, u) == {}))
  }

  lemma RefreshingStart(reg: map<string, seq<Item>>, serviceMap: map<int, string>, threshold: int)
    ensures Refreshing(reg, serviceMap, threshold, reg, serviceMap, reg.Keys)
  {
  }

  /** Refreshing type `t` (a purge cycle and a fresh query `n`, when its query runs) advances the walk by one type. */
  lemma RefreshingStep(reg0: map<string, seq<Item>>, serviceMap0: map<int, string>, threshold: int,
                       reg: map<string, seq<Item>>, serviceMap: map<int, string>, pending: set<string>, t: string,
                       reg': map<string, seq<Item>>, serviceMap': map<int, string>, n: int)
    requires Refreshing(reg0, serviceMap0, threshold, reg, serviceMap, pending) && t in pending
    requires TopQueries(serviceMap, t) == {} ==> reg' == reg && serviceMap' == serviceMap
    requires TopQueries(serviceMap, t) != {} ==>
      && n !in serviceMap
      && reg' == PurgedRegistry(reg, t, threshold)
      && serviceMap' == (serviceMap - TopQueries(serviceMap, t))[n := t]
    ensures Refreshing(reg0, serviceMap0, threshold, reg', serviceMap', pending - {t})
  {
    forall u | u in reg0 && u != t
      ensures TopQueries(serviceMap', u) == TopQueries(serviceMap, u)
    {
      TopQueriesOfOthers(serviceMap, t, u, n);
      TopQueriesOfOthers(serviceMap - TopQueries(serviceMap, t), t, u, n);
    }
    if TopQueries(serviceMap, t) != {} {
      assert n in TopQueries(serviceMap', t);
    }
  }

  /** When unicastLookup's walk ends, every type whose query ran went through one purge cycle. */
  lemma RefreshingEnd(reg0: map<string, seq<Item>>, serviceMap0: map<int, string>, threshold: int,
                      reg: map<string, seq<Item>>, serviceMap: map<int, string>)
    requires Refreshing(reg0, serviceMap0, threshold, reg, serviceMap, {})
    ensures reg.Keys == reg0.Keys
    ensures forall u :: u in reg ==> reg[u] == if TopQueries(serviceMap0, u) != {} then Purged(reg0[u], threshold) else reg0[u]
    ensures forall u :: u in reg ==> (TopQueries(serviceMap, u) == {} <==> TopQueries(serviceMap0, u) == {})
  {
  }

  /** `pub` with the empty list shown to each of the first `n` configured queries whose type is in `types`. */
  function Cleared(pub: map<nat, seq<string>>, qs: seq<Query>, n: nat, types: set<string>): map<nat, seq<string>>
    requires n <= |qs|
    decreases n
  {
    if n == 0 then pub
    else
      var c := Cleared(pub, qs, n - 1, types);
      if qs[n - 1].serviceType in types then c[n - 1 := []] else c
  }

  /** Clearing no type changes nothing. */
  lemma {:induction false} ClearedNothing(pub: map<nat, seq<string>>, qs: seq<Query>, n: nat)
    requires n <= |qs|
    ensures Cleared(pub, qs, n, {}) == pub
    decreases n
  {
    if n > 0 {
      ClearedNothing(pub, qs, n - 1);
    }
  }

  /** Clearing one more type is showing the empty list to its queries. */
  lemma {:induction false} ClearedStep(pub: map<nat, seq<string>>, qs: seq<Query>, n: nat, types: set<string>, t: string,
                                       global: Filter, matches: Matcher)
    requires n <= |qs|
    ensures Cleared(pub, qs, n, types) + Views([], qs, n, t, global, matches) == Cleared(pub, qs, n, types + {t})
    decreases n
  {
    if n > 0 {
      var k: nat := n - 1;
      var c: map<nat, seq<string>> := Cleared(pub, qs, k, types);
      var v: map<nat, seq<string>> := Views([], qs, k, t, global, matches);
      var r: map<nat, seq<string>> := Cleared(pub, qs, k, types + {t});
      ClearedStep(pub, qs, k, types, t, global, matches);
      assert c + v == r;
      ViewsMeaning([], qs, k, t, global, matches);
      assert k !in v;
      QueryViewOfNothing(qs[k], global, matches);
      var inTypes, isT := qs[k].serviceType in types, qs[k].serviceType == t;
      assert Cleared(pub, qs, n, types) == if inTypes then c[k := []] else c;
      assert Views([], qs, n, t, global, matches) == if isT then v[k := []] else v;
      assert Cleared(pub, qs, n, types + {t}) == if inTypes || isT then r[k := []] else r;
      if isT && inTypes {
        UnionUpdateBoth(c, v, k, [], []);
      } else if isT {
        UnionUpdateRight(c, v, k, []);
      } else if inTypes {
        UnionUpdateLeft(c, v, k, []);
      }
    }
  }

  /** Updating both operands of a union at the same key updates the union with the right value. */
  lemma UnionUpdateBoth<K, V>(a: map<K, V>, b: map<K, V>, k: K, x: V, y: V)
    ensures a[k := y] + b[k := x] == (a + b)[k := x]
  {
  }

  /** Updating the right operand of a union updates the union. */
  lemma UnionUpdateRight<K, V>(a: map<K, V>, b: map<K, V>, k: K, x: V)
    ensures a + b[k := x] == (a + b)[k := x]
  {
  }

  /** Updating the left operand of a union at a key the right one lacks updates the union. */
  lemma UnionUpdateLeft<K, V>(a: map<K, V>, b: map<K, V>, k: K, x: V)
    requires k !in b
    ensures a[k := x] + b == (a + b)[k := x]
  {
  }

  /**
    The state of removeAllServiceTypes' walk over the registered types of
    `reg0` when the types in `pending` are still registered: the follow-up
    queries of the others are forgotten and cancelled, and the configured
    queries of the others are shown the empty list.
  */
  ghost predicate Removing(typeMap0: map<int, RecordType>, itemMap0: map<int, ItemRef>, cancelled0: set<int>,
                           pub0: map<nat, seq<string>>, reg0: map<string, seq<Item>>, qs: seq<Query>,
                           typeMap: map<int, RecordType>, itemMap: map<int, ItemRef>, cancelled: set<int>,
                           pub: map<nat, seq<string>>, reg: map<string, seq<Item>>, pending: set<string>)
  {
    && reg.Keys == pending && pending <= reg0.Keys
    && Forgotten(typeMap0, itemMap0, cancelled0, typeMap, itemMap, cancelled)
    && pub == Cleared(pub0, qs, |qs|, reg0.Keys - pending)
  }

  lemma RemovingStart(typeMap: map<int, RecordType>, itemMap: map<int, ItemRef>, cancelled: set<int>,
                      pub: map<nat, seq<string>>, reg: map<string, seq<Item>>, qs: seq<Query>)
    ensures Removing(typeMap, itemMap, cancelled, pub, reg, qs, typeMap, itemMap, cancelled, pub, reg, reg.Keys)
  {
    ClearedNothing(pub, qs, |qs|);
    assert reg.Keys - reg.Keys == {};
  }

  /** Removing type `t`, with the follow-up queries `gone` of its items, advances the walk by one type. */
  lemma RemovingStep(typeMap0: map<int, RecordType>, itemMap0: map<int, ItemRef>, cancelled0: set<int>,
                     pub0: map<nat, seq<string>>, reg0: map<string, seq<Item>>, qs: seq<Query>,
                     typeMap: map<int, RecordType>, itemMap: map<int, ItemRef>, cancelled: set<int>,
                     pub: map<nat, seq<string>>, reg: map<string, seq<Item>>, pending: set<string>,
                     t: string, gone: set<int>, global: Filter, matches: Matcher,
                     typeMap': map<int, RecordType>, itemMap': map<int, ItemRef>, cancelled': set<int>,
                     pub': map<nat, seq<string>>, reg': map<string, seq<Item>>)
    requires Removing(typeMap0, itemMap0, cancelled0, pub0, reg0, qs, typeMap, itemMap, cancelled, pub, reg, pending)
    requires t in pending && gone <= itemMap.Keys
    requires itemMap' == itemMap - gone && typeMap' == typeMap - gone && cancelled' == cancelled + gone
    requires reg' == reg - {t} && pub' == pub + Views([], qs, |qs|, t, global, matches)
    ensures Removing(typeMap0, itemMap0, cancelled0, pub0, reg0, qs, typeMap', itemMap', cancelled', pub', reg', pending - {t})
  {
    ForgottenStep(typeMap0, itemMap0, cancelled0, typeMap, itemMap, cancelled, gone, typeMap', itemMap', cancelled');
    ClearedOneMore(pub0, qs, reg0.Keys, pending, t, global, matches, pub, pub');
  }

  /** When removeAllServiceTypes' walk ends, every registered type is gone and shown the empty list. */
  lemma RemovingEnd(typeMap0: map<int, RecordType>, itemMap0: map<int, ItemRef>, cancelled0: set<int>,
                    pub0: map<nat, seq<string>>, reg0: map<string, seq<Item>>, qs: seq<Query>,
                    typeMap: map<int, RecordType>, itemMap: map<int, ItemRef>, cancelled: set<int>,
                    pub: map<nat, seq<string>>, reg: map<string, seq<Item>>)
    requires Removing(typeMap0, itemMap0, cancelled0, pub0, reg0, qs, typeMap, itemMap, cancelled, pub, reg, {})
    ensures reg == map[]
    ensures typeMap == typeMap0 - (itemMap0.Keys - itemMap.Keys) && cancelled == cancelled0 + (itemMap0.Keys - itemMap.Keys)
    ensures pub == Cleared(pub0, qs, |qs|, reg0.Keys)
  {
    assert reg0.Keys - {} == reg0.Keys;
  }

  /** One more removed type `t` in removeAllServiceTypes' walk: its queries are shown the empty list too. */
  lemma ClearedOneMore(pub0: map<nat, seq<string>>, qs: seq<Query>, all: set<string>, pending: set<string>, t: string,
                       global: Filter, matches: Matcher, pub: map<nat, seq<string>>, pub': map<nat, seq<string>>)
    requires t in pending && pending <= all
    requires pub == Cleared(pub0, qs, |qs|, all - pending)
    requires pub' == pub + Views([], qs, |qs|, t, global, matches)
    ensures pub' == Cleared(pub0, qs, |qs|, all - (pending - {t}))
  {
    ClearedStep(pub0, qs, |qs|, all - pending, t, global, matches);
    OneMoreDone(all, pending, t);
  }

  /** Taking `t` out of what is pending adds it to what is done. */
  lemma OneMoreDone<T>(all: set<T>, pending: set<T>, t: T)
    requires t in pending && pending <= all
    ensures all - (pending - {t}) == (all - pending) + {t}
  {
  }

  /** A query of a type without items is shown the empty list. */
  lemma QueryViewOfNothing(q: Query, global: Filter, matches: Matcher)
    ensures QueryView([], q, global, matches) == []
  {
    assert Selected([], global, q.filter, matches) == [];
  }

  /**
    The ledger after some item-owned ids were forgotten: the type map lost the
    same ids and the transport had them cancelled.
  */
  ghost predicate Forgotten(typeMap0: map<int, RecordType>, itemMap0: map<int, ItemRef>, cancelled0: set<int>,
                            typeMap: map<int, RecordType>, itemMap: map<int, ItemRef>, cancelled: set<int>)
  {
    && itemMap.Keys <= itemMap0.Keys
    && typeMap == typeMap0 - (itemMap0.Keys - itemMap.Keys)
    && cancelled == cancelled0 + (itemMap0.Keys - itemMap.Keys)
  }

  /** Forgetting more item-owned ids, with the same ids dropped and cancelled, is still forgetting. */
  lemma ForgottenStep(typeMap0: map<int, RecordType>, itemMap0: map<int, ItemRef>, cancelled0: set<int>,
                      typeMap: map<int, RecordType>, itemMap: map<int, ItemRef>, cancelled: set<int>,
                      gone: set<int>, typeMap': map<int, RecordType>, itemMap': map<int, ItemRef>, cancelled': set<int>)
    requires Forgotten(typeMap0, itemMap0, cancelled0, typeMap, itemMap, cancelled)
    requires gone <= itemMap.Keys
    requires itemMap' == itemMap - gone && typeMap' == typeMap - gone && cancelled' == cancelled + gone
    ensures Forgotten(typeMap0, itemMap0, cancelled0, typeMap', itemMap', cancelled')
  {
    assert itemMap0.Keys - itemMap'.Keys == (itemMap0.Keys - itemMap.Keys) + gone;
    MapMinusTwice(typeMap0, itemMap0.Keys - itemMap.Keys, gone);
  }

  /** The item names a configured query is shown: all items of its type for an A query, else the filtered ones. */
  function QueryView(items: seq<Item>, q: Query, global: Filter, matches: Matcher): seq<string>
  {
    Names(if q.queryType == A then items else Selected(items, global, q.filter, matches))
  }

  /** The views of the first `n` configured queries that have type `t`, keyed by their position. */
  function Views(items: seq<Item>, qs: seq<Query>, n: nat, t: string, global: Filter, matches: Matcher): map<nat, seq<string>>
    requires n <= |qs|
    decreases n
  {
    if n == 0 then map[]
    else
      var v := Views(items, qs, n - 1, t, global, matches);
      if qs[n - 1].serviceType == t then v[n - 1 := QueryView(items, qs[n - 1], global, matches)] else v
  }

  /** Exactly the queries of type `t` among the first `n` have a view, and it is their filtered item list. */
  lemma {:induction false} ViewsMeaning(items: seq<Item>, qs: seq<Query>, n: nat, t: string, global: Filter, matches: Matcher)
    requires n <= |qs|
    ensures forall j: nat :: j in Views(items, qs, n, t, global, matches) <==> j < n && qs[j].serviceType == t
    ensures forall j :: j in Views(items, qs, n, t, global, matches) ==>
      Views(items, qs, n, t, global, matches)[j] == QueryView(items, qs[j], global, matches)
    decreases n
  {
    if n > 0 {
      ViewsMeaning(items, qs, n - 1, t, global, matches);
      var v := Views(items, qs, n - 1, t, global, matches);
      var w := Views(items, qs, n, t, global, matches);
      var k: nat := n - 1;
      if qs[k].serviceType == t {
        assert w == v[k := QueryView(items, qs[k], global, matches)];
      } else {
        assert w == v;
      }
    }
  }

  /**
    `pub` refreshes `pub0` for the service types in `done`: every configured
    query of such a type shows its current view, every other entry of `pub0`
    is kept, and nothing else is added.
  */
  ghost predicate Refreshed(pub0: map<nat, seq<string>>, pub: map<nat, seq<string>>, reg: map<string, seq<Item>>,
                            qs: seq<Query>, global: Filter, matches: Matcher, done: set<string>)
    requires done <= reg.Keys
  {
    && (forall j: nat :: j < |qs| && qs[j].serviceType in done ==>
          j in pub && pub[j] == QueryView(reg[qs[j].serviceType], qs[j], global, matches))
    && (forall j :: j in pub0 && !(j < |qs| && qs[j].serviceType in done) ==> j in pub && pub[j] == pub0[j])
    && (forall j :: j in pub ==> j in pub0 || (j < |qs| && qs[j].serviceType in done))
  }

  /** Republishing one more type `t` extends the refreshed set by `t`. */
  lemma RefreshedStep(pub0: map<nat, seq<string>>, pub: map<nat, seq<string>>, reg: map<string, seq<Item>>,
                      qs: seq<Query>, global: Filter, matches: Matcher, done: set<string>, t: string)
    requires done <= reg.Keys && t in reg
    requires Refreshed(pub0, pub, reg, qs, global, matches, done)
    ensures Refreshed(pub0, pub + Views(reg[t], qs, |qs|, t, global, matches), reg, qs, global, matches, done + {t})
  {
    ViewsMeaning(reg[t], qs, |qs|, t, global, matches);
  }

  /** The non-empty service types the configured queries name, which updateServices tracks. */
  function QueriedTypes(qs: seq<Query>): set<string>
  {
    if qs == [] then {}
    else QueriedTypes(qs[..|qs| - 1]) + (if qs[|qs| - 1].serviceType != "" then {qs[|qs| - 1].serviceType} else {})
  }

  /** QueriedTypes over one more query. */
  lemma QueriedTypesSnoc(qs: seq<Query>, j: int)
    requires 0 <= j < |qs|
    ensures QueriedTypes(qs[..j + 1]) == QueriedTypes(qs[..j]) + (if qs[j].serviceType != "" then {qs[j].serviceType} else {})
  {
    assert qs[..j + 1][..j] == qs[..j];
  }

  /** A service type is queried exactly when it is non-empty and some configured query names it. */
  lemma {:induction false} QueriedTypesMeaning(qs: seq<Query>, t: string)
    ensures t in QueriedTypes(qs) <==> t != "" && exists j :: 0 <= j < |qs| && qs[j].serviceType == t
    decreases |qs|
  {
    if qs != [] {
      var init := qs[..|qs| - 1];
      QueriedTypesMeaning(init, t);
      assert forall j :: 0 <= j < |init| ==> init[j] == qs[j];
      if t != "" && exists j :: 0 <= j < |qs| && qs[j].serviceType == t {
        var j :| 0 <= j < |qs| && qs[j].serviceType == t;
        if j < |init| {
          assert init[j].serviceType == t;
        }
      }
    }
  }

  /**
    The record type registered for a service type that updateServices adds:
    that of the first configured query naming it, since addServiceType
    ignores the later ones (Unset when no query names it).
  */
  function FirstQueryType(qs: seq<Query>, t: string): RecordType
    decreases |qs|
  {
    if qs == [] then Unset
    else
      var init := qs[..|qs| - 1];
      if t in QueriedTypes(init) then FirstQueryType(init, t)
      else if qs[|qs| - 1].serviceType == t then qs[|qs| - 1].queryType
      else Unset
  }

  /** FirstQueryType over one more configured query. */
  lemma FirstQueryTypeSnoc(qs: seq<Query>, j: int, t: string)
    requires 0 <= j < |qs|
    ensures FirstQueryType(qs[..j + 1], t) ==
      if t in QueriedTypes(qs[..j]) then FirstQueryType(qs[..j], t)
      else if qs[j].serviceType == t then qs[j].queryType
      else Unset
  {
    assert qs[..j + 1][..j] == qs[..j];
  }

  /**
    The record types registered by the first loop of updateServices over the
    queries `qs`, starting from `kinds0`: every queried type has one, the old
    types keep theirs, and each added type has that of the first query naming it.
  */
  predicate TypesFrom(kinds0: map<string, RecordType>, kinds: map<string, RecordType>, qs: seq<Query>)
  {
    && QueriedTypes(qs) <= kinds.Keys
    && (forall t :: t in kinds0 ==> t in kinds && kinds[t] == kinds0[t])
    && (forall t :: t in kinds && t !in kinds0 ==> t in QueriedTypes(qs) && kinds[t] == FirstQueryType(qs, t))
  }

  /** addServiceType for configured query `j` extends TypesFrom by that query. */
  lemma TypesFromStep(kinds0: map<string, RecordType>, kinds1: map<string, RecordType>, kinds: map<string, RecordType>,
                      qs: seq<Query>, j: int)
    requires 0 <= j < |qs| && TypesFrom(kinds0, kinds1, qs[..j])
    requires qs[j].serviceType == "" ==> kinds == kinds1
    requires qs[j].serviceType != "" && qs[j].serviceType in kinds1 ==> kinds == kinds1
    requires qs[j].serviceType != "" && qs[j].serviceType !in kinds1 ==> kinds == kinds1[qs[j].serviceType := qs[j].queryType]
    ensures TypesFrom(kinds0, kinds, qs[..j + 1])
  {
    assert qs[..j + 1][..j] == qs[..j];
    forall t | t in kinds && t !in kinds0
      ensures t in QueriedTypes(qs[..j + 1]) && kinds[t] == FirstQueryType(qs[..j + 1], t)
    {
      FirstQueryTypeSnoc(qs, j, t);
    }
  }

  /**
    The record types after the first loop of updateServices over the queries
    `qs`, starting from `kinds0`: addServiceType records the query type of a
    named service type only when the type is not tracked yet.
  */
  function RegisteredTypes(kinds0: map<string, RecordType>, qs: seq<Query>): map<string, RecordType>
    decreases |qs|
  {
    if qs == [] then kinds0 else TypeAdded(RegisteredTypes(kinds0, qs[..|qs| - 1]), qs[|qs| - 1])
  }

  /** The record types after addServiceType for the type a configured query `q` names, if any. */
  function TypeAdded(kinds: map<string, RecordType>, q: Query): map<string, RecordType>
  {
    if q.serviceType == "" || q.serviceType in kinds then kinds else kinds[q.serviceType := q.queryType]
  }

  /** RegisteredTypes over one more query. */
  lemma RegisteredTypesSnoc(kinds0: map<string, RecordType>, qs: seq<Query>, j: int)
    requires 0 <= j < |qs|
    ensures RegisteredTypes(kinds0, qs[..j + 1]) == TypeAdded(RegisteredTypes(kinds0, qs[..j]), qs[j])
  {
    assert qs[..j + 1][..j] == qs[..j];
  }

  /** RegisteredTypes satisfies TypesFrom: the first query naming a new type decides its record type. */
  lemma {:induction false} RegisteredTypesMeaning(kinds0: map<string, RecordType>, qs: seq<Query>)
    ensures TypesFrom(kinds0, RegisteredTypes(kinds0, qs), qs)
    decreases |qs|
  {
    if qs != [] {
      var j := |qs| - 1;
      assert qs[..j + 1] == qs;
      RegisteredTypesMeaning(kinds0, qs[..j]);
      TypesFromStep(kinds0, RegisteredTypes(kinds0, qs[..j]), RegisteredTypes(kinds0, qs), qs, j);
    }
  }

  /**
    After the second loop of updateServices drops the `stale` types, each
    remaining type keeps its old record type or, when new, has that of the
    first query naming it.
  */
  lemma TypesAfterDrop(kinds0: map<string, RecordType>, kinds1: map<string, RecordType>, kinds: map<string, RecordType>,
                       stale: set<string>, qs: seq<Query>)
    requires kinds1 == RegisteredTypes(kinds0, qs) && kinds == kinds1 - stale
    ensures forall t :: t in kinds && t in kinds0 ==> kinds[t] == kinds0[t]
    ensures forall t :: t in kinds && t !in kinds0 ==> kinds[t] == FirstQueryType(qs, t)
  {
    RegisteredTypesMeaning(kinds0, qs);
  }

  /** Removing one more of the pending keys. */
  lemma DropOneMore<V>(m: map<string, V>, stale: set<string>, pending: set<string>, t: string)
    requires t in pending && pending <= stale
    ensures m - (stale - pending) - {t} == m - (stale - (pending - {t}))
  {
    assert (m - (stale - pending) - {t}).Keys == (m - (stale - (pending - {t}))).Keys;
  }

  /** For a queried type, FirstQueryType is the record type of the earliest query that names it. */
  lemma {:induction false} FirstQueryTypeMeaning(qs: seq<Query>, t: string)
    requires t in QueriedTypes(qs)
    ensures exists j ::
      && 0 <= j < |qs| && qs[j].serviceType == t && FirstQueryType(qs, t) == qs[j].queryType
      && forall i :: 0 <= i < j ==> qs[i].serviceType != t
    decreases |qs|
  {
    var init := qs[..|qs| - 1];
    if t in QueriedTypes(init) {
      FirstQueryTypeMeaning(init, t);
      var j :|
        && 0 <= j < |init| && init[j].serviceType == t && FirstQueryType(init, t) == init[j].queryType
        && forall i :: 0 <= i < j ==> init[i].serviceType != t;
      assert qs[j] == init[j];
      assert forall i :: 0 <= i < j ==> qs[i] == init[i];
    } else {
      var j := |qs| - 1;
      QueriedTypesMeaning(init, t);
      forall i | 0 <= i < j ensures qs[i].serviceType != t {
        assert qs[i] == init[i];
      }
    }
  }

  /**
    The registry after the PTR announcement of instance `name` of type `t`:
    the item is upserted and waits for the follow-up queries `n` and `n + 1`.
  */
  function Announcement(reg: map<string, seq<Item>>, t: string, name: string, n: int): (r: map<string, seq<Item>>)
    requires t in reg
    ensures r.Keys == reg.Keys
  {
    var items := Upserted(reg[t], name, t);
    var k := IndexOf(items, name);
    if k < 0 then reg[t := items]
    else Resolving(reg[t := items], t, k, n)
  }

  /** Once the item is upserted and found at `k`, the announcement is the start of its resolution. */
  lemma AnnouncementIs(reg0: map<string, seq<Item>>, reg: map<string, seq<Item>>, t: string, name: string, k: int, n: int)
    requires t in reg0 && reg == reg0[t := Upserted(reg0[t], name, t)]
    requires 0 <= k == IndexOf(reg[t], name)
    ensures Announcement(reg0, t, name, n) == Resolving(reg, t, k, n)
  {
  }

  /** The registry with item `k` of type `t` replaced by `it`. */
  function Replaced(reg: map<string, seq<Item>>, t: string, k: int, it: Item): (r: map<string, seq<Item>>)
    requires t in reg && 0 <= k < |reg[t]|
    ensures r.Keys == reg.Keys
  {
    reg[t := reg[t][k := it]]
  }

  /** The registry with item `k` of type `t` waiting for the follow-up queries `n` and `n + 1` as well. */
  function Resolving(reg: map<string, seq<Item>>, t: string, k: int, n: int): (r: map<string, seq<Item>>)
    requires t in reg && 0 <= k < |reg[t]|
  {
    Replaced(reg, t, k, Awaiting(Awaiting(reg[t][k], {n}), {n + 1}))
  }

  /** Replacing the same item twice keeps the second value only. */
  lemma ReplacedTwice(reg: map<string, seq<Item>>, t: string, k: int, a: Item, b: Item)
    requires t in reg && 0 <= k < |reg[t]|
    ensures Replaced(Replaced(reg, t, k, a), t, k, b) == Replaced(reg, t, k, b)
  {
    assert reg[t][k := a][k := b] == reg[t][k := b];
  }

  /** The item after the answer to its TXT query `id`: the texts are stored. */
  function TxtAnswered(it: Item, id: int, r: Record): Item
  {
    Answered(it, id).(txtRecords := r.texts)
  }

  /** The item after the answer to its SRV query `id`: host and port are stored and the A query `n` is awaited. */
  function SrvAnswered(it: Item, id: int, r: Record, n: int): Item
  {
    it.(outstanding := it.outstanding - {id} + {n}, hostName := r.name, port := r.port)
  }

  /** The item after the answer to its A or AAAA query `id`: the address is stored. */
  function AddressAnswered(it: Item, id: int, r: Record): Item
  {
    Answered(it, id).(hostAddress := r.address)
  }

  /**
    A freshly announced item that waits for nothing else (TXT query `txt`,
    SRV query `srv`) is resolved once the TXT, the SRV and then the A answer
    (query `a`) have arrived, whichever of TXT and SRV comes first; it then
    carries the texts, host, port and address of those answers. The TXT
    answer may even come after the A answer: the final item is the same.
  */
  lemma ResolutionCompletes(it: Item, txt: int, srv: int, a: int, rt: Record, rs: Record, ra: Record)
    requires it.outstanding == {txt, srv} && txt != srv && a != txt
    ensures var x := AddressAnswered(SrvAnswered(TxtAnswered(it, txt, rt), srv, rs, a), a, ra);
      && !HasOutstandingRequests(x)
      && MarkedResolved(x).updated && MarkedResolved(x).errorCount == 0
      && x.txtRecords == rt.texts && x.hostName == rs.name && x.port == rs.port && x.hostAddress == ra.address
    ensures AddressAnswered(SrvAnswered(TxtAnswered(it, txt, rt), srv, rs, a), a, ra)
         == AddressAnswered(TxtAnswered(SrvAnswered(it, srv, rs, a), txt, rt), a, ra)
    ensures AddressAnswered(SrvAnswered(TxtAnswered(it, txt, rt), srv, rs, a), a, ra)
         == TxtAnswered(AddressAnswered(SrvAnswered(it, srv, rs, a), a, ra), txt, rt)
  {
    assert {txt, srv} - {txt} - {srv} + {a} - {a} == {};
    assert {txt, srv} - {srv} + {a} - {txt} - {a} == {};
    assert {txt, srv} - {srv} + {a} - {a} - {txt} == {};
  }

  /** As long as one of its follow-up queries is unanswered, an item is not resolved. */
  lemma UnresolvedWhileWaiting(it: Item, id: int, r: Record)
    requires exists other :: other in it.outstanding && other != id
    ensures MarkedResolved(TxtAnswered(it, id, r)) == TxtAnswered(it, id, r)
    ensures MarkedResolved(AddressAnswered(it, id, r)) == AddressAnswered(it, id, r)
  {
    var other :| other in it.outstanding && other != id;
    assert other in TxtAnswered(it, id, r).outstanding;
    assert other in AddressAnswered(it, id, r).outstanding;
  }

  /** The service type of the top-level query `id`; the empty type when there is none. */
  function ServiceOf(serviceMap: map<int, string>, id: int): string
  {
    if id in serviceMap then serviceMap[id] else ""
  }

  /** The number of records with a positive TTL: the announcements of a PTR response. */
  function Announcements(rs: seq<Record>): nat
  {
    if rs == [] then 0 else Announcements(rs[..|rs| - 1]) + (if rs[|rs| - 1].ttl > 0 then 1 else 0)
  }

  /** Announcements over one more record. */
  lemma AnnouncementsSnoc(rs: seq<Record>, i: int)
    requires 0 <= i < |rs|
    ensures Announcements(rs[..i + 1]) == Announcements(rs[..i]) + if rs[i].ttl > 0 then 1 else 0
  {
    assert rs[..i + 1][..i] == rs[..i];
  }

  /** A PTR response announces something exactly when one of its records has a positive TTL. */
  lemma {:induction false} AnnouncementsPositive(rs: seq<Record>)
    ensures Announcements(rs) > 0 <==> exists j :: 0 <= j < |rs| && rs[j].ttl > 0
    ensures Announcements(rs) <= |rs|
    decreases |rs|
  {
    if rs != [] {
      var init := rs[..|rs| - 1];
      AnnouncementsPositive(init);
      assert forall j :: 0 <= j < |init| ==> init[j] == rs[j];
      if Announcements(init) > 0 {
        var j :| 0 <= j < |init| && init[j].ttl > 0;
        assert rs[j].ttl > 0;
      }
    }
  }

  /** The record types whose answers resultsReady stores in an item. */
  predicate ItemAnswer(kind: RecordType)
  {
    kind == Txt || kind == Srv || kind == A || kind == Aaaa
  }

  /** The part of the discovery state that an answer record can change. */
  datatype Snapshot = Snapshot(reg: map<string, seq<Item>>, owners: map<int, ItemRef>, kinds: map<int, RecordType>,
                               next: int, cancelled: set<int>, published: map<nat, seq<string>>)

  /**
    The state after a PTR record with a positive TTL announces instance
    `name` of the registered type `t`: the item is upserted and waits for a
    fresh TXT query and a fresh SRV query, which the ledger records.
  */
  function AfterAnnounce(s: Snapshot, t: string, name: string): Snapshot
    requires t in s.reg
  {
    var n := s.next;
    s.(reg := Announcement(s.reg, t, name, n),
       owners := s.owners[n := ItemRef(t, name)][n + 1 := ItemRef(t, name)],
       kinds := s.kinds[n := Txt][n + 1 := Srv],
       next := n + 2)
  }

  /** AfterAnnounce, field by field, as AnnounceItem reports its effect. */
  lemma AfterAnnounceIs(reg0: map<string, seq<Item>>, owners0: map<int, ItemRef>, kinds0: map<int, RecordType>,
                        next0: int, cancelled0: set<int>, published0: map<nat, seq<string>>,
                        reg1: map<string, seq<Item>>, k: int,
                        reg: map<string, seq<Item>>, owners: map<int, ItemRef>, kinds: map<int, RecordType>,
                        next: int, t: string, name: string)
    requires t in reg0 && reg1 == reg0[t := Upserted(reg0[t], name, t)]
    requires 0 <= k == IndexOf(reg1[t], name)
    requires next == next0 + 2
    requires reg == Resolving(reg1, t, k, next0)
    requires kinds == kinds0[next0 := Txt][next0 + 1 := Srv]
    requires owners == owners0[next0 := ItemRef(t, reg1[t][k].name)][next0 + 1 := ItemRef(t, reg1[t][k].name)]
    ensures Snapshot(reg, owners, kinds, next, cancelled0, published0)
         == AfterAnnounce(Snapshot(reg0, owners0, kinds0, next0, cancelled0, published0), t, name)
  {
    AnnouncementIs(reg0, reg1, t, name, k, next0);
  }

  /**
    The state after a PTR record with TTL zero withdraws instance `name` of
    type `t`: the ids its item owned are cancelled and forgotten, and when
    the item exists it leaves the list and `t` is republished to the
    configured queries `qs`.
  */
  function AfterWithdraw(s: Snapshot, t: string, name: string, qs: seq<Query>, global: Filter, matches: Matcher): Snapshot
  {
    var gone := Owned(s.owners, ItemRef(t, name));
    var s' := s.(owners := s.owners - gone, kinds := s.kinds - gone, cancelled := s.cancelled + gone);
    if t in s.reg && IndexOf(s.reg[t], name) >= 0 then
      var items := Removed(s.reg[t], name);
      s'.(reg := s.reg[t := items], published := s.published + Views(items, qs, |qs|, t, global, matches))
    else s'
  }

  /** AfterWithdraw spelled out field by field for an item that is present at position `k`. */
  lemma AfterWithdrawIs(reg0: map<string, seq<Item>>, owners0: map<int, ItemRef>, kinds0: map<int, RecordType>,
                        next0: int, cancelled0: set<int>, published0: map<nat, seq<string>>,
                        reg: map<string, seq<Item>>, owners: map<int, ItemRef>, kinds: map<int, RecordType>,
                        cancelled: set<int>, published: map<nat, seq<string>>,
                        t: string, name: string, k: int, qs: seq<Query>, global: Filter, matches: Matcher)
    requires t in reg0 && k == IndexOf(reg0[t], name) && 0 <= k < |reg0[t]|
    requires reg == reg0[t := reg0[t][..k] + reg0[t][k + 1..]]
    requires owners == owners0 - Owned(owners0, ItemRef(t, reg0[t][k].name))
    requires kinds == kinds0 - Owned(owners0, ItemRef(t, reg0[t][k].name))
    requires cancelled == cancelled0 + Owned(owners0, ItemRef(t, reg0[t][k].name))
    requires published == published0 + Views(reg[t], qs, |qs|, t, global, matches)
    ensures Snapshot(reg, owners, kinds, next0, cancelled, published)
         == AfterWithdraw(Snapshot(reg0, owners0, kinds0, next0, cancelled0, published0), t, name, qs, global, matches)
  {
  }

  /**
    The state after an answer of type `kind` (TXT, SRV, A or AAAA) to the
    follow-up query `id`: the item owning `id` forgets it, which is
    cancelled, and stores what the record carries: the texts for TXT, host
    and port for SRV, which also start a fresh A query, the address for A
    and AAAA. After TXT, A and AAAA an item that waits for nothing more is
    marked updated and its type is republished. Without an owner nothing
    changes.
  */
  function AfterAnswer(s: Snapshot, id: int, kind: RecordType, r: Record, qs: seq<Query>, global: Filter, matches: Matcher): Snapshot
  {
    if id !in s.owners || s.owners[id].serviceType !in s.reg then s
    else
      var owner := s.owners[id];
      var t := owner.serviceType;
      var k := IndexOf(s.reg[t], owner.name);
      if k < 0 then s
      else
        var it, n := s.reg[t][k], s.next;
        if kind == Srv then
          s.(reg := Replaced(s.reg, t, k, SrvAnswered(it, id, r, n)),
             owners := (s.owners - {id})[n := owner], kinds := (s.kinds - {id})[n := A],
             next := n + 1, cancelled := s.cancelled + {id})
        else
          var answered := if kind == Txt then TxtAnswered(it, id, r) else AddressAnswered(it, id, r);
          s.(reg := Replaced(s.reg, t, k, MarkedResolved(answered)),
             owners := s.owners - {id}, kinds := s.kinds - {id}, cancelled := s.cancelled + {id},
             published := if HasOutstandingRequests(answered) then s.published
                          else s.published + Views(Replaced(s.reg, t, k, answered)[t], qs, |qs|, t, global, matches))
  }

  /** AfterAnswer spelled out field by field for a TXT, A or AAAA answer to a live owner. */
  lemma AfterDataAnswerIs(reg0: map<string, seq<Item>>, owners0: map<int, ItemRef>, kinds0: map<int, RecordType>,
                          next0: int, cancelled0: set<int>, published0: map<nat, seq<string>>,
                          reg: map<string, seq<Item>>, owners: map<int, ItemRef>, kinds: map<int, RecordType>,
                          cancelled: set<int>, published: map<nat, seq<string>>,
                          id: int, kind: RecordType, r: Record, t: string, k: int, answered: Item,
                          qs: seq<Query>, global: Filter, matches: Matcher)
    requires ItemAnswer(kind) && kind != Srv
    requires id in owners0 && t == owners0[id].serviceType && t in reg0
    requires k == IndexOf(reg0[t], owners0[id].name) && 0 <= k < |reg0[t]|
    requires answered == if kind == Txt then TxtAnswered(reg0[t][k], id, r) else AddressAnswered(reg0[t][k], id, r)
    requires reg == Replaced(reg0, t, k, MarkedResolved(answered))
    requires !HasOutstandingRequests(answered) ==>
      published == published0 + Views(Replaced(reg0, t, k, answered)[t], qs, |qs|, t, global, matches)
    requires HasOutstandingRequests(answered) ==> published == published0
    requires owners == owners0 - {id} && kinds == kinds0 - {id} && cancelled == cancelled0 + {id}
    ensures Snapshot(reg, owners, kinds, next0, cancelled, published)
         == AfterAnswer(Snapshot(reg0, owners0, kinds0, next0, cancelled0, published0), id, kind, r, qs, global, matches)
  {
  }

  /** AfterAnswer spelled out field by field for an SRV answer to a live owner. */
  lemma AfterSrvAnswerIs(reg0: map<string, seq<Item>>, owners0: map<int, ItemRef>, kinds0: map<int, RecordType>,
                         next0: int, cancelled0: set<int>, published0: map<nat, seq<string>>,
                         reg: map<string, seq<Item>>, owners: map<int, ItemRef>, kinds: map<int, RecordType>,
                         next: int, cancelled: set<int>,
                         id: int, r: Record, t: string, k: int, qs: seq<Query>, global: Filter, matches: Matcher)
    requires id in owners0 && t == owners0[id].serviceType && t in reg0
    requires k == IndexOf(reg0[t], owners0[id].name) && 0 <= k < |reg0[t]|
    requires next == next0 + 1
    requires reg == Replaced(reg0, t, k, SrvAnswered(reg0[t][k], id, r, next0))
    requires owners == (owners0 - {id})[next0 := ItemRef(t, reg0[t][k].name)]
    requires kinds == (kinds0 - {id})[next0 := A]
    requires cancelled == cancelled0 + {id}
    ensures Snapshot(reg, owners, kinds, next, cancelled, published0)
         == AfterAnswer(Snapshot(reg0, owners0, kinds0, next0, cancelled0, published0), id, Srv, r, qs, global, matches)
  {
  }

  /**
    The state after resultsReady handles answer record `r` to query `id`,
    whose recorded type is `kind`; `serviceMap` holds the top-level queries.
    PTR records announce or withdraw an instance of the query's service
    type, TXT, SRV, A and AAAA records fill in the item owning `id`, other
    records are ignored. A record whose item is missing (an announcement for
    an unregistered type, an answer no item owns) changes nothing.
  */
  function AfterRecord(s: Snapshot, serviceMap: map<int, string>, id: int, kind: RecordType, r: Record,
                       qs: seq<Query>, global: Filter, matches: Matcher): Snapshot
  {
    if kind == Ptr then
      var t, name := ServiceOf(serviceMap, id), InstanceName(r.name);
      if r.ttl <= 0 then AfterWithdraw(s, t, name, qs, global, matches)
      else if t in s.reg then AfterAnnounce(s, t, name)
      else s
    else if ItemAnswer(kind) then AfterAnswer(s, id, kind, r, qs, global, matches)
    else s
  }

  /** The state after the records `rs` are handled in order, each as AfterRecord says. */
  function AfterRecords(s: Snapshot, serviceMap: map<int, string>, id: int, kind: RecordType, rs: seq<Record>,
                        qs: seq<Query>, global: Filter, matches: Matcher): Snapshot
    decreases |rs|
  {
    if rs == [] then s
    else
      var prior := AfterRecords(s, serviceMap, id, kind, rs[..|rs| - 1], qs, global, matches);
      AfterRecord(prior, serviceMap, id, kind, rs[|rs| - 1], qs, global, matches)
  }

  /** AfterRecords over one more record. */
  lemma AfterRecordsSnoc(s: Snapshot, serviceMap: map<int, string>, id: int, kind: RecordType, rs: seq<Record>, i: int,
                         qs: seq<Query>, global: Filter, matches: Matcher)
    requires 0 <= i < |rs|
    ensures AfterRecords(s, serviceMap, id, kind, rs[..i + 1], qs, global, matches)
         == AfterRecord(AfterRecords(s, serviceMap, id, kind, rs[..i], qs, global, matches), serviceMap, id, kind, rs[i], qs, global, matches)
  {
    assert rs[..i + 1][..i] == rs[..i];
  }

  /**
    An answer to a follow-up query is taken once: the first one retires the
    id (or finds no live owner), so a second answer to the same id changes
    nothing. The precondition holds of every consistent ledger, whose ids
    all lie below the next fresh one.
  */
  lemma AnswerOnce(s: Snapshot, id: int, kind: RecordType, r1: Record, r2: Record,
                   qs: seq<Query>, global: Filter, matches: Matcher)
    requires ItemAnswer(kind)
    requires id in s.owners ==> id < s.next
    ensures var s1 := AfterAnswer(s, id, kind, r1, qs, global, matches);
      AfterAnswer(s1, id, kind, r2, qs, global, matches) == s1
  {
    var s1 := AfterAnswer(s, id, kind, r1, qs, global, matches);
    if s1 != s {
      assert id !in s1.owners;
    }
  }

  /** Of the records answering one follow-up query, only the first has an effect. */
  lemma {:induction false} OnlyFirstAnswerCounts(s: Snapshot, serviceMap: map<int, string>, id: int, kind: RecordType,
                                                 rs: seq<Record>, qs: seq<Query>, global: Filter, matches: Matcher)
    requires ItemAnswer(kind) && rs != []
    requires id in s.owners ==> id < s.next
    ensures AfterRecords(s, serviceMap, id, kind, rs, qs, global, matches)
         == AfterRecord(s, serviceMap, id, kind, rs[0], qs, global, matches)
    decreases |rs|
  {
    var init := rs[..|rs| - 1];
    if init == [] {
      assert rs[0] == rs[|rs| - 1];
    } else {
      OnlyFirstAnswerCounts(s, serviceMap, id, kind, init, qs, global, matches);
      assert init[0] == rs[0];
      AnswerOnce(s, id, kind, rs[0], rs[|rs| - 1], qs, global, matches);
    }
  }

  class ServiceDiscovery {
    /** The wildcard match used by every filter. */
    const matches: Matcher

    var running: bool
    var networkReady: bool
    var lookupReady: bool
    var unicastErrorThreshold: int
    /** The global filter. */
    var filter: Filter
    /** The configured queries of all service lists, in order. */
    var queries: seq<Query>
    /** The item names last handed to configured query j. */
    var published: map<nat, seq<string>>

    /** Query ledger. */
    var queryIdTypeMap: map<int, RecordType>
    var queryIdServiceMap: map<int, string>
    var queryIdItemMap: map<int, ItemRef>

    /** Item registry. */
    var serviceItemsMap: map<string, seq<Item>>
    var serviceTypeMap: map<string, RecordType>

    /** The resolver transport: whether it exists, the next id it hands out, and the ids cancelled so far. */
    var transportOpen: bool
    var nextQueryId: int
    var cancelled: set<int>

    ghost predicate Valid()
      reads this`queryIdTypeMap, this`queryIdServiceMap, this`queryIdItemMap, this`nextQueryId
      reads this`serviceItemsMap, this`serviceTypeMap
    {
      Consistent(serviceItemsMap, serviceTypeMap, queryIdTypeMap, queryIdServiceMap, queryIdItemMap, nextQueryId)
    }

    constructor (matches: Matcher)
      ensures Valid()
      ensures this.matches == matches
      ensures !running && !networkReady && !lookupReady && !transportOpen && unicastErrorThreshold == 2
      ensures filter == Filter("", []) && queries == [] && published == map[]
      ensures queryIdTypeMap == map[] && queryIdServiceMap == map[] && queryIdItemMap == map[]
      ensures serviceItemsMap == map[] && serviceTypeMap == map[] && cancelled == {}
    {
      this.matches := matches;
      running, networkReady, lookupReady, transportOpen := false, false, false, false;
      unicastErrorThreshold := 2;
      filter := Filter("", []);
      queries, published := [], map[];
      queryIdTypeMap, queryIdServiceMap, queryIdItemMap := map[], map[], map[];
      serviceItemsMap, serviceTypeMap := map[], map[];
      nextQueryId, cancelled := 0, {};
    }

    /** The view of configured query j in the current state. */
    function PublishedView(j: nat): seq<string>
      reads this`serviceItemsMap, this`queries, this`filter
      requires j < |queries| && queries[j].serviceType in serviceItemsMap
    {
      QueryView(serviceItemsMap[queries[j].serviceType], queries[j], filter, matches)
    }

    /** `pub` with the view of every configured query of type `t` refreshed. */
    function Republished(pub: map<nat, seq<string>>, t: string): map<nat, seq<string>>
      reads this`serviceItemsMap, this`queries, this`filter
      requires t in serviceItemsMap
    {
      pub + Views(serviceItemsMap[t], queries, |queries|, t, filter, matches)
    }

    /** updateServiceType: hands every configured query of type `t` its (filtered) items. */
    method UpdateServiceType(t: string)
      modifies this`published
      ensures t in serviceItemsMap ==> published == Republished(old(published), t)
      ensures t !in serviceItemsMap ==> published == old(published)
    {
      if t !in serviceItemsMap {
        return;
      }
      var items, qs, global := serviceItemsMap[t], queries, filter;
      var views: map<nat, seq<string>> := map[];
      var j := 0;
      while j < |qs|
        invariant 0 <= j <= |qs|
        invariant views == Views(items, qs, j, t, global, matches)
        invariant published == old(published)
      {
        if qs[j].serviceType == t {
          var shown := items;
          if qs[j].queryType != A {  // hostname resolve queries are not filtered
            shown := SelectItems(items, global, qs[j].filter, matches);
          }
          views := views[j := Names(shown)];
        }
        j := j + 1;
      }
      published := published + views;
    }

    /** addServiceType: registers a service type with an empty item list, unless it is already registered. */
    method AddServiceType(t: string, queryType: RecordType)
      requires Valid()
      modifies this`serviceItemsMap, this`serviceTypeMap
      ensures Valid()
      ensures t in old(serviceItemsMap) ==>
        serviceItemsMap == old(serviceItemsMap) && serviceTypeMap == old(serviceTypeMap)
      ensures t !in old(serviceItemsMap) ==>
        serviceItemsMap == old(serviceItemsMap)[t := []] && serviceTypeMap == old(serviceTypeMap)[t := queryType]
    {
      if t in serviceItemsMap {
        return;
      }
      serviceItemsMap := serviceItemsMap[t := []];
      serviceTypeMap := serviceTypeMap[t := queryType];
    }

    /** getItem: the item of type `t` called `name`, if there is one. */
    method GetItem(name: string, t: string) returns (r: Option<Item>)
      ensures r.Some? <==> t in serviceItemsMap && exists k :: 0 <= k < |serviceItemsMap[t]| && serviceItemsMap[t][k].name == name
      ensures r.Some? ==> r.value in serviceItemsMap[t] && r.value.name == name
    {
      if t !in serviceItemsMap {
        return None;
      }
      var items := serviceItemsMap[t];
      var k := FindItem(items, name);
      if k < 0 {
        return None;
      }
      return Some(items[k]);
    }

    /**
      addItem: the item of type `t` called `name`, created empty and appended
      when there is none; nothing when the type is not registered.
    */
    method AddItem(name: string, t: string) returns (r: Option<Item>)
      requires Valid()
      modifies this`serviceItemsMap
      ensures Valid()
      ensures t !in old(serviceItemsMap) ==> r == None && serviceItemsMap == old(serviceItemsMap)
      ensures t in old(serviceItemsMap) ==>
        && serviceItemsMap == old(serviceItemsMap)[t := Upserted(old(serviceItemsMap)[t], name, t)]
        && r.Some? && r.value in serviceItemsMap[t] && r.value.name == name
      ensures t in old(serviceItemsMap) && IndexOf(old(serviceItemsMap)[t], name) >= 0 ==>
        r == Some(old(serviceItemsMap)[t][IndexOf(old(serviceItemsMap)[t], name)])
      ensures t in old(serviceItemsMap) && IndexOf(old(serviceItemsMap)[t], name) < 0 ==>
        r == Some(NewItem(name, t)) && serviceItemsMap[t] == old(serviceItemsMap)[t] + [NewItem(name, t)]
    {
      if t !in serviceItemsMap {
        return None;
      }
      var items := serviceItemsMap[t];
      var k := FindItem(items, name);
      if k >= 0 {
        return Some(items[k]);
      }
      var it := NewItem(name, t);
      AppendItemKeepsLink(serviceItemsMap, serviceTypeMap, queryIdItemMap, t, it);
      serviceItemsMap := serviceItemsMap[t := items + [it]];
      r := Some(it);
    }

    /** stopItemQueries: cancels and forgets every follow-up query owned by the item `r`. */
    method StopItemQueries(r: ItemRef)
      modifies this`queryIdItemMap, this`queryIdTypeMap, this`cancelled
      ensures queryIdItemMap == old(queryIdItemMap) - Owned(old(queryIdItemMap), r)
      ensures queryIdTypeMap == old(queryIdTypeMap) - Owned(old(queryIdItemMap), r)
      ensures cancelled == old(cancelled) + Owned(old(queryIdItemMap), r)
    {
      var snapshot := queryIdItemMap;  // the map iterator walks a copy
      var pending := snapshot.Keys;
      while pending != {}
        invariant pending <= snapshot.Keys
        invariant queryIdItemMap == snapshot - (Owned(snapshot, r) - pending)
        invariant queryIdTypeMap == old(queryIdTypeMap) - (Owned(snapshot, r) - pending)
        invariant cancelled == old(cancelled) + (Owned(snapshot, r) - pending)
        decreases pending
      {
        assert (forall x :: x !in pending) ==> pending == {};
        var id: int :| id in pending;
        if snapshot[id] == r {
          cancelled := cancelled + {id};
          queryIdItemMap := queryIdItemMap - {id};
          queryIdTypeMap := queryIdTypeMap - {id};
        }
        pending := pending - {id};
      }
    }
 
    /**
      removeItem: the first item of type `t` called `name` loses its follow-up
      queries and leaves the list, and the type is republished; nothing happens
      when there is no such item.
    */
    method RemoveItem(name: string, t: string)
      requires Valid()
      modifies this`serviceItemsMap, this`queryIdItemMap, this`queryIdTypeMap, this`cancelled, this`published
      ensures Valid()
      ensures Answerable() == AfterWithdraw(old(Answerable()), t, name, queries, filter, matches)
      ensures t in serviceItemsMap ==> IndexOf(serviceItemsMap[t], name) < 0
    {
      if t !in serviceItemsMap {
        NothingOwnedByAbsent(ItemRef(t, name));
        return;
      }
      var items := serviceItemsMap[t];
      var k := FindItem(items, name);
      if k < 0 {
        NothingOwnedByAbsent(ItemRef(t, name));
        return;
      }
      WithdrawAt(t, name, k);
      RemovedProperties(items, name, t);
    }

    /** removeItem once the item `name` is found at position `k` of type `t`: the new state is AfterWithdraw. */
    method WithdrawAt(t: string, name: string, k: int)
      requires Valid() && t in serviceItemsMap && k == IndexOf(serviceItemsMap[t], name) && 0 <= k < |serviceItemsMap[t]|
      modifies this`serviceItemsMap, this`queryIdItemMap, this`queryIdTypeMap, this`cancelled, this`published
      ensures Valid()
      ensures Answerable() == AfterWithdraw(old(Answerable()), t, name, queries, filter, matches)
    {
      DropItem(t, k);
      ghost var reg, owners, kinds, gone, pub := serviceItemsMap, queryIdItemMap, queryIdTypeMap, cancelled, published;
      assert pub == old(published);
      UpdateServiceType(t);
      assert published == pub + Views(reg[t], queries, |queries|, t, filter, matches);
      AfterWithdrawIs(old(serviceItemsMap), old(queryIdItemMap), old(queryIdTypeMap), old(nextQueryId), old(cancelled), old(published),
                      reg, owners, kinds, gone, published, t, name, k, queries, filter, matches);
      assert old(Answerable()) == Snapshot(old(serviceItemsMap), old(queryIdItemMap), old(queryIdTypeMap), old(nextQueryId), old(cancelled), old(published));
      assert Answerable() == Snapshot(reg, owners, kinds, old(nextQueryId), gone, published);
    }

    /** The item at position `k` of type `t` loses its follow-up queries and leaves the list. */
    method DropItem(t: string, k: int)
      requires Valid() && t in serviceItemsMap && 0 <= k < |serviceItemsMap[t]|
      modifies this`serviceItemsMap, this`queryIdItemMap, this`queryIdTypeMap, this`cancelled
      ensures Valid()
      ensures var items := old(serviceItemsMap)[t];
        var ids := Owned(old(queryIdItemMap), ItemRef(t, items[k].name));
        && serviceItemsMap == old(serviceItemsMap)[t := items[..k] + items[k + 1..]]
        && queryIdItemMap == old(queryIdItemMap) - ids
        && queryIdTypeMap == old(queryIdTypeMap) - ids
        && cancelled == old(cancelled) + ids
    {
      var items := serviceItemsMap[t];
      RemoveKeepsConsistent(serviceItemsMap, serviceTypeMap, queryIdTypeMap, queryIdServiceMap, queryIdItemMap, nextQueryId, t, k);
      StopItemQueries(ItemRef(t, items[k].name));
      serviceItemsMap := serviceItemsMap[t := items[..k] + items[k + 1..]];
    }

    /**
      clearItems: every item of type `t` loses its follow-up queries and the
      list is emptied (last item first), then the type is republished.
    */
    method ClearItems(t: string)
      requires Valid()
      modifies this`serviceItemsMap, this`queryIdItemMap, this`queryIdTypeMap, this`cancelled, this`published
      ensures Valid()
      ensures serviceItemsMap == ClearedRegistry(old(serviceItemsMap), t)
      ensures var gone := ClearGone(old(serviceItemsMap), old(queryIdItemMap), t);
        && queryIdItemMap == old(queryIdItemMap) - gone
        && queryIdTypeMap == old(queryIdTypeMap) - gone
        && cancelled == old(cancelled) + gone
      ensures t in old(serviceItemsMap) ==> published == Republished(old(published), t)
      ensures t !in old(serviceItemsMap) ==> published == old(published)
    {
      if t !in serviceItemsMap {
        return;
      }
      var items := serviceItemsMap[t];
      ClearingStart(serviceItemsMap, serviceTypeMap, queryIdTypeMap, queryIdServiceMap, queryIdItemMap, nextQueryId, cancelled, t);
      StopListQueries(t, items);
      ClearingEnd(serviceItemsMap, serviceTypeMap, queryIdTypeMap, queryIdServiceMap, queryIdItemMap, nextQueryId,
                  old(queryIdTypeMap), old(queryIdItemMap), old(cancelled), cancelled, t, items);
      serviceItemsMap := serviceItemsMap[t := []];
      assert Valid();
      UpdateServiceType(t);
    }

    /** The delete loop of clearItems: the items of `items` are taken out from the last one on, each with its queries. */
    method StopListQueries(t: string, items: seq<Item>)
      requires Clearing(serviceItemsMap, serviceTypeMap, queryIdTypeMap, queryIdServiceMap, queryIdItemMap, nextQueryId,
                        queryIdTypeMap, queryIdItemMap, cancelled, cancelled, t, items, |items|)
      modifies this`queryIdItemMap, this`queryIdTypeMap, this`cancelled
      ensures Clearing(serviceItemsMap, serviceTypeMap, queryIdTypeMap, queryIdServiceMap, queryIdItemMap, nextQueryId,
                       old(queryIdTypeMap), old(queryIdItemMap), old(cancelled), cancelled, t, items, 0)
    {
      var i := |items|;
      while i > 0
        invariant Clearing(serviceItemsMap, serviceTypeMap, queryIdTypeMap, queryIdServiceMap, queryIdItemMap, nextQueryId,
                           old(queryIdTypeMap), old(queryIdItemMap), old(cancelled), cancelled, t, items, i)
      {
        i := i - 1;
        ghost var typeMap, itemMap, cancelledBefore := queryIdTypeMap, queryIdItemMap, cancelled;
        StopItemQueries(ItemRef(t, items[i].name));
        ClearingStep(serviceItemsMap, serviceTypeMap, typeMap, queryIdServiceMap, itemMap, nextQueryId,
                     old(queryIdTypeMap), old(queryIdItemMap), old(cancelled), cancelledBefore, t, items, i,
                     queryIdTypeMap, queryIdItemMap, cancelled);
      }
    }

    /**
      purgeItems: one purge cycle over the items of type `t`. An item that was
      not refreshed since the last cycle counts one more error and, past the
      unicast error threshold, loses its follow-up queries and leaves the list;
      a refreshed item is marked stale for the next cycle. The type is
      republished only when an item was evicted.
    */
    method PurgeItems(t: string)
      requires Valid()
      modifies this`serviceItemsMap, this`queryIdItemMap, this`queryIdTypeMap, this`cancelled, this`published
      ensures Valid()
      ensures serviceItemsMap == PurgedRegistry(old(serviceItemsMap), t, unicastErrorThreshold)
      ensures var gone := PurgeGone(old(serviceItemsMap), old(queryIdItemMap), t, unicastErrorThreshold);
        && queryIdItemMap == old(queryIdItemMap) - gone
        && queryIdTypeMap == old(queryIdTypeMap) - gone
        && cancelled == old(cancelled) + gone
      ensures PurgeEvicts(old(serviceItemsMap), t, unicastErrorThreshold) ==> published == Republished(old(published), t)
      ensures !PurgeEvicts(old(serviceItemsMap), t, unicastErrorThreshold) ==> published == old(published)
    {
      if t !in serviceItemsMap {
        return;
      }
      var list, modified := PurgeType(t);
      serviceItemsMap := serviceItemsMap[t := list];
      if modified {
        UpdateServiceType(t);
      }
    }

    /** purgeItems' walk over the items of type `t`: the purged list, and whether anything was evicted. */
    method PurgeType(t: string) returns (list: seq<Item>, modified: bool)
      requires Valid() && t in serviceItemsMap
      modifies this`queryIdItemMap, this`queryIdTypeMap, this`cancelled
      ensures list == Purged(serviceItemsMap[t], unicastErrorThreshold)
      ensures serviceItemsMap[t := list] == PurgedRegistry(serviceItemsMap, t, unicastErrorThreshold)
      ensures modified == PurgeEvicts(serviceItemsMap, t, unicastErrorThreshold)
      ensures Consistent(serviceItemsMap[t := list], serviceTypeMap, queryIdTypeMap, queryIdServiceMap, queryIdItemMap, nextQueryId)
      ensures var gone := PurgeGone(serviceItemsMap, old(queryIdItemMap), t, unicastErrorThreshold);
        && queryIdItemMap == old(queryIdItemMap) - gone
        && queryIdTypeMap == old(queryIdTypeMap) - gone
        && cancelled == old(cancelled) + gone
    {
      var items := serviceItemsMap[t];
      PurgingStart(serviceItemsMap, serviceTypeMap, queryIdTypeMap, queryIdServiceMap, queryIdItemMap, nextQueryId,
                   cancelled, t, unicastErrorThreshold);
      list, modified := PurgeList(t, items);
      PurgingEnd(serviceItemsMap, serviceTypeMap, queryIdTypeMap, queryIdServiceMap, queryIdItemMap, nextQueryId,
                 old(queryIdTypeMap), old(queryIdItemMap), old(cancelled), cancelled, t, items, unicastErrorThreshold,
                 list, modified);
    }

    /** The loop of purgeItems over `items`, from the last item to the first. */
    method PurgeList(t: string, items: seq<Item>) returns (list: seq<Item>, modified: bool)
      requires Purging(serviceItemsMap, serviceTypeMap, queryIdTypeMap, queryIdServiceMap, queryIdItemMap, nextQueryId,
                       queryIdTypeMap, queryIdItemMap, cancelled, cancelled, t, items, unicastErrorThreshold,
                       |items|, items, false)
      modifies this`queryIdItemMap, this`queryIdTypeMap, this`cancelled
      ensures Purging(serviceItemsMap, serviceTypeMap, queryIdTypeMap, queryIdServiceMap, queryIdItemMap, nextQueryId,
                      old(queryIdTypeMap), old(queryIdItemMap), old(cancelled), cancelled, t, items, unicastErrorThreshold,
                      0, list, modified)
    {
      list, modified := items, false;
      var i := |items|;
      while i > 0
        invariant Purging(serviceItemsMap, serviceTypeMap, queryIdTypeMap, queryIdServiceMap, queryIdItemMap, nextQueryId,
                          old(queryIdTypeMap), old(queryIdItemMap), old(cancelled), cancelled, t, items,
                          unicastErrorThreshold, i, list, modified)
      {
        i := i - 1;
        ghost var typeMap, itemMap, cancelledBefore, listBefore, modifiedBefore := queryIdTypeMap, queryIdItemMap, cancelled, list, modified;
        assert list[i] == items[i];
        var it := list[i];
        if !it.updated {
          it := it.(errorCount := it.errorCount + 1);
          if it.errorCount > unicastErrorThreshold {
            StopItemQueries(ItemRef(t, it.name));
            list := list[..i] + list[i + 1..];
            modified := true;
            PurgingEvict(serviceItemsMap, serviceTypeMap, typeMap, queryIdServiceMap, itemMap, nextQueryId,
                         old(queryIdTypeMap), old(queryIdItemMap), old(cancelled), cancelledBefore, t, items,
                         unicastErrorThreshold, i, listBefore, modifiedBefore,
                         queryIdTypeMap, queryIdItemMap, cancelled);
          } else {
            list := list[i := it];
            PurgingAge(serviceItemsMap, serviceTypeMap, queryIdTypeMap, queryIdServiceMap, queryIdItemMap, nextQueryId,
                       old(queryIdTypeMap), old(queryIdItemMap), old(cancelled), cancelled, t, items,
                       unicastErrorThreshold, i, listBefore, modified);
          }
        } else {
          list := list[i := it.(updated := false)];
          PurgingAge(serviceItemsMap, serviceTypeMap, queryIdTypeMap, queryIdServiceMap, queryIdItemMap, nextQueryId,
                     old(queryIdTypeMap), old(queryIdItemMap), old(cancelled), cancelled, t, items,
                     unicastErrorThreshold, i, listBefore, modified);
        }
      }
    }

    /**
      removeServiceType: clears the items of type `t` (their queries are
      cancelled and the queries of that type are shown an empty list), then
      forgets the type.
    */
    method RemoveServiceType(t: string)
      requires Valid()
      modifies this`serviceItemsMap, this`serviceTypeMap, this`queryIdItemMap, this`queryIdTypeMap, this`cancelled, this`published
      ensures Valid()
      ensures t !in old(serviceItemsMap) ==>
        && serviceItemsMap == old(serviceItemsMap) && serviceTypeMap == old(serviceTypeMap)
        && published == old(published)
        && queryIdItemMap == old(queryIdItemMap) && queryIdTypeMap == old(queryIdTypeMap)
        && cancelled == old(cancelled)
      ensures t in old(serviceItemsMap) ==>
        var gone := OwnedBy(old(queryIdItemMap), t, NameSet(old(serviceItemsMap)[t]));
        && serviceItemsMap == old(serviceItemsMap) - {t} && serviceTypeMap == old(serviceTypeMap) - {t}
        && queryIdItemMap == old(queryIdItemMap) - gone
        && queryIdTypeMap == old(queryIdTypeMap) - gone
        && cancelled == old(cancelled) + gone
        && published == old(published) + Views([], queries, |queries|, t, filter, matches)
    {
      if t !in serviceItemsMap {
        return;
      }
      ClearItems(t);
      ForgetType(t);
    }

    /** The last step of removeServiceType: the emptied type `t` leaves both registries. */
    method ForgetType(t: string)
      requires Valid() && t in serviceItemsMap && serviceItemsMap[t] == []
      modifies this`serviceItemsMap, this`serviceTypeMap
      ensures Valid()
      ensures serviceItemsMap == old(serviceItemsMap) - {t} && serviceTypeMap == old(serviceTypeMap) - {t}
    {
      DropEmptyTypeKeepsLink(serviceItemsMap, serviceTypeMap, queryIdItemMap, t);
      serviceItemsMap := serviceItemsMap - {t};
      serviceTypeMap := serviceTypeMap - {t};
    }

    /**
      removeAllServiceTypes: removes every registered service type; all
      follow-up queries are cancelled and forgotten, and every query of a
      removed type is shown an empty list.
    */
    method RemoveAllServiceTypes()
      requires Valid()
      modifies this`serviceItemsMap, this`serviceTypeMap, this`queryIdItemMap, this`queryIdTypeMap, this`cancelled, this`published
      ensures Valid()
      ensures serviceItemsMap == map[] && serviceTypeMap == map[] && queryIdItemMap == map[]
      ensures queryIdTypeMap == old(queryIdTypeMap) - old(queryIdItemMap).Keys
      ensures cancelled == old(cancelled) + old(queryIdItemMap).Keys
      ensures published == Cleared(old(published), queries, |queries|, old(serviceItemsMap).Keys)
    {
      var pending := serviceItemsMap.Keys;  // the map iterator walks a copy
      RemovingStart(queryIdTypeMap, queryIdItemMap, cancelled, published, serviceItemsMap, queries);
      while pending != {}
        invariant Valid()
        invariant Removing(old(queryIdTypeMap), old(queryIdItemMap), old(cancelled), old(published), old(serviceItemsMap), queries,
                           queryIdTypeMap, queryIdItemMap, cancelled, published, serviceItemsMap, pending)
        decreases pending
      {
        assert (forall x :: x !in pending) ==> pending == {};
        var t :| t in pending;
        ghost var itemMap, typeMap, cancelledBefore, pub, reg := queryIdItemMap, queryIdTypeMap, cancelled, published, serviceItemsMap;
        ghost var gone := OwnedBy(itemMap, t, NameSet(serviceItemsMap[t]));
        RemoveServiceType(t);
        RemovingStep(old(queryIdTypeMap), old(queryIdItemMap), old(cancelled), old(published), old(serviceItemsMap), queries,
                     typeMap, itemMap, cancelledBefore, pub, reg, pending, t, gone, filter, matches,
                     queryIdTypeMap, queryIdItemMap, cancelled, published, serviceItemsMap);
        pending := pending - {t};
      }
      RemovingEnd(old(queryIdTypeMap), old(queryIdItemMap), old(cancelled), old(published), old(serviceItemsMap), queries,
                  queryIdTypeMap, queryIdItemMap, cancelled, published, serviceItemsMap);
      NothingLiveWhenEmpty();
    }

    /**
      updateAllServiceTypes: every registered service type is republished, so
      every configured query of a registered type shows its current view.
    */
    method UpdateAllServiceTypes()
      modifies this`published
      ensures Refreshed(old(published), published, serviceItemsMap, queries, filter, matches, serviceItemsMap.Keys)
      ensures forall j: nat :: j < |queries| && queries[j].serviceType in serviceItemsMap ==>
        j in published && published[j] == PublishedView(j)
    {
      var pending := serviceItemsMap.Keys;
      while pending != {}
        invariant pending <= serviceItemsMap.Keys
        invariant Refreshed(old(published), published, serviceItemsMap, queries, filter, matches, serviceItemsMap.Keys - pending)
        decreases pending
      {
        assert (forall x :: x !in pending) ==> pending == {};
        var t :| t in pending;
        RefreshedStep(old(published), published, serviceItemsMap, queries, filter, matches, serviceItemsMap.Keys - pending, t);
        UpdateServiceType(t);
        assert serviceItemsMap.Keys - pending + {t} == serviceItemsMap.Keys - (pending - {t});
        pending := pending - {t};
      }
    }

    /** setFilter: a different global filter is stored and every registered type is republished under it. */
    method SetFilter(arg: Filter)
      modifies this`filter, this`published
      ensures filter == arg
      ensures old(filter) == arg ==> published == old(published)
      ensures old(filter) != arg ==>
        Refreshed(old(published), published, serviceItemsMap, queries, arg, matches, serviceItemsMap.Keys)
      ensures old(filter) != arg ==>
        forall j: nat :: j < |queries| && queries[j].serviceType in serviceItemsMap ==>
          j in published && published[j] == PublishedView(j)
    {
      if filter != arg {
        filter := arg;
        UpdateAllServiceTypes();
      }
    }

    /**
      setUnicastErrorThreshold: stores the number of failed cycles an item may
      survive; the next purge cycle (`PurgeItems`) evicts by the new value.
    */
    method SetUnicastErrorThreshold(arg: int)
      modifies this`unicastErrorThreshold
      ensures unicastErrorThreshold == arg
    {
      if unicastErrorThreshold != arg {
        unicastErrorThreshold := arg;
      }
    }

    /**
      updateServices: every service type a configured query names is
      registered (and queried while running on a ready network), every
      previously registered type no query names is stopped and removed, and
      then every registered type is republished. Types that stay keep their
      items; new ones start empty.
    */
    method UpdateServices()
      requires Valid()
      modifies this`serviceItemsMap, this`serviceTypeMap, this`queryIdItemMap, this`queryIdTypeMap
      modifies this`queryIdServiceMap, this`nextQueryId, this`cancelled, this`published
      ensures Valid()
      ensures serviceItemsMap.Keys == QueriedTypes(queries)
      ensures forall t :: t in serviceItemsMap && t in old(serviceItemsMap) ==> serviceItemsMap[t] == old(serviceItemsMap)[t]
      ensures forall t :: t in serviceItemsMap && t !in old(serviceItemsMap) ==> serviceItemsMap[t] == []
      ensures running && networkReady ==>
        && (forall t :: t in serviceItemsMap ==> |TopQueries(queryIdServiceMap, t)| == 1)
        && (forall t :: t in old(serviceItemsMap) && t !in serviceItemsMap ==> TopQueries(queryIdServiceMap, t) == {})
      ensures forall t :: t in serviceTypeMap && t in old(serviceTypeMap) ==> serviceTypeMap[t] == old(serviceTypeMap)[t]
      ensures forall t :: t in serviceTypeMap && t !in old(serviceTypeMap) ==> serviceTypeMap[t] == FirstQueryType(queries, t)
      ensures !(running && networkReady) ==> queryIdServiceMap == old(queryIdServiceMap) && nextQueryId == old(nextQueryId)
      ensures forall j: nat :: j < |queries| && queries[j].serviceType in serviceItemsMap ==>
        j in published && published[j] == PublishedView(j)
    {
      ReconcileTypes();
      TypesAfterDrop(old(serviceTypeMap), RegisteredTypes(old(serviceTypeMap), queries), serviceTypeMap,
                     old(serviceItemsMap).Keys - QueriedTypes(queries), queries);
      UpdateAllServiceTypes();  // now every configured query is refilled with fresh data
    }

    /** updateServices up to the final republication: the registry and the top-level queries reconciled. */
    method ReconcileTypes()
      requires Valid()
      modifies this`serviceItemsMap, this`serviceTypeMap, this`queryIdItemMap, this`queryIdTypeMap
      modifies this`queryIdServiceMap, this`nextQueryId, this`cancelled, this`published
      ensures Valid()
      ensures serviceItemsMap.Keys == QueriedTypes(queries)
      ensures forall t :: t in serviceItemsMap && t in old(serviceItemsMap) ==> serviceItemsMap[t] == old(serviceItemsMap)[t]
      ensures forall t :: t in serviceItemsMap && t !in old(serviceItemsMap) ==> serviceItemsMap[t] == []
      ensures running && networkReady ==>
        && (forall t :: t in serviceItemsMap ==> |TopQueries(queryIdServiceMap, t)| == 1)
        && (forall t :: t in old(serviceItemsMap) && t !in serviceItemsMap ==> TopQueries(queryIdServiceMap, t) == {})
      ensures serviceTypeMap == RegisteredTypes(old(serviceTypeMap), queries) - (old(serviceItemsMap).Keys - QueriedTypes(queries))
      ensures !(running && networkReady) ==> queryIdServiceMap == old(queryIdServiceMap) && nextQueryId == old(nextQueryId)
    {
      var stale := RegisterQueries();
      DropStaleTypes(stale, QueriedTypes(queries));
      forall t | t in serviceItemsMap && running && networkReady ensures |TopQueries(queryIdServiceMap, t)| == 1 {
        AtMostOneTopQuery(queryIdServiceMap, t);
      }
    }

    /**
      The first loop of updateServices: the type of every configured query
      that names one is registered, and queried while running on a ready
      network; `stale` is what is left of the copy of the old registry.
    */
    method RegisterQueries() returns (stale: set<string>)
      requires Valid()
      modifies this`serviceItemsMap, this`serviceTypeMap, this`queryIdTypeMap, this`queryIdServiceMap, this`nextQueryId
      ensures Valid()
      ensures Registering(old(serviceItemsMap), QueriedTypes(queries), stale) && Querying(QueriedTypes(queries))
      ensures serviceTypeMap == RegisteredTypes(old(serviceTypeMap), queries)
      ensures !(running && networkReady) ==>
        && queryIdServiceMap == old(queryIdServiceMap) && queryIdTypeMap == old(queryIdTypeMap)
        && nextQueryId == old(nextQueryId)
    {
      stale := serviceItemsMap.Keys;  // the copy of the registry, minus the types still wanted
      var j := 0;
      while j < |queries|
        invariant 0 <= j <= |queries| && Valid()
        invariant Registering(old(serviceItemsMap), QueriedTypes(queries[..j]), stale) && Querying(QueriedTypes(queries[..j]))
        invariant serviceTypeMap == RegisteredTypes(old(serviceTypeMap), queries[..j])
        invariant !(running && networkReady) ==>
          && queryIdServiceMap == old(queryIdServiceMap) && queryIdTypeMap == old(queryIdTypeMap)
          && nextQueryId == old(nextQueryId)
      {
        stale := RegisterQuery(old(serviceItemsMap), j, stale);
        RegisteredTypesSnoc(old(serviceTypeMap), queries, j);
        j := j + 1;
      }
      assert queries[..j] == queries;
    }

    /**
      The second loop of updateServices: every type in `stale` is stopped
      (while running on a ready network) and removed; the other types keep
      their lists, and the types in `kept` their top-level queries.
    */
    method DropStaleTypes(stale: set<string>, ghost kept: set<string>)
      requires Valid() && stale <= serviceItemsMap.Keys && stale !! kept && Querying(kept)
      modifies this`serviceItemsMap, this`serviceTypeMap, this`queryIdItemMap, this`queryIdTypeMap
      modifies this`queryIdServiceMap, this`cancelled, this`published
      ensures Valid()
      ensures serviceItemsMap.Keys == old(serviceItemsMap).Keys - stale
      ensures forall t :: t in serviceItemsMap ==> serviceItemsMap[t] == old(serviceItemsMap)[t]
      ensures serviceTypeMap == old(serviceTypeMap) - stale
      ensures running && networkReady ==>
        && (forall t :: t in kept ==> TopQueries(queryIdServiceMap, t) != {})
        && (forall t :: t in stale ==> TopQueries(queryIdServiceMap, t) == {})
      ensures !(running && networkReady) ==> queryIdServiceMap == old(queryIdServiceMap)
    {
      var pending := stale;
      while pending != {}
        invariant pending <= stale && Valid()
        invariant StaleDropped(old(serviceItemsMap), stale, pending) && StaleStopped(kept, stale, pending)
        invariant serviceTypeMap == old(serviceTypeMap) - (stale - pending)
        invariant !(running && networkReady) ==> queryIdServiceMap == old(queryIdServiceMap)
        decreases pending
      {
        assert (forall x :: x !in pending) ==> pending == {};
        var t :| t in pending;
        DropStaleType(old(serviceItemsMap), kept, stale, pending, t);
        DropOneMore(old(serviceTypeMap), stale, pending, t);
        pending := pending - {t};
      }
    }

    /**
      The registry during the first loop of updateServices, once the types
      `types` have been registered: starting from `reg0`, new types are empty,
      old ones keep their lists, and `stale` holds the old types not in `types`.
    */
    ghost predicate Registering(reg0: map<string, seq<Item>>, types: set<string>, stale: set<string>)
      reads this`serviceItemsMap
    {
      && serviceItemsMap.Keys == reg0.Keys + types
      && (forall t :: t in reg0 ==> serviceItemsMap[t] == reg0[t])
      && (forall t :: t in serviceItemsMap && t !in reg0 ==> serviceItemsMap[t] == [])
      && stale == reg0.Keys - types
    }

    /** While running on a ready network, every type in `types` has a top-level query. */
    ghost predicate Querying(types: set<string>)
      reads this`queryIdServiceMap, this`running, this`networkReady
    {
      running && networkReady ==> forall t :: t in types ==> TopQueries(queryIdServiceMap, t) != {}
    }

    /** One pass of the first loop of updateServices: configured query `j`. */
    method RegisterQuery(ghost reg0: map<string, seq<Item>>, j: int, stale: set<string>) returns (stale': set<string>)
      requires 0 <= j < |queries| && Valid()
      requires Registering(reg0, QueriedTypes(queries[..j]), stale) && Querying(QueriedTypes(queries[..j]))
      modifies this`serviceItemsMap, this`serviceTypeMap, this`queryIdTypeMap, this`queryIdServiceMap, this`nextQueryId
      ensures Valid()
      ensures Registering(reg0, QueriedTypes(queries[..j + 1]), stale') && Querying(QueriedTypes(queries[..j + 1]))
      ensures serviceTypeMap == TypeAdded(old(serviceTypeMap), queries[j])
      ensures !(running && networkReady) ==> unchanged(this`queryIdServiceMap, this`queryIdTypeMap, this`nextQueryId)
    {
      if queries[j].serviceType == "" {
        assert queries[..j + 1][..j] == queries[..j];
        return stale;
      }
      stale' := TrackType(reg0, j, stale);
      StartTracked(j);
    }

    /** The registry part of one pass of the first loop: the type query `j` names is registered and is no longer stale. */
    method TrackType(ghost reg0: map<string, seq<Item>>, j: int, stale: set<string>) returns (stale': set<string>)
      requires 0 <= j < |queries| && queries[j].serviceType != ""
      requires Valid() && Registering(reg0, QueriedTypes(queries[..j]), stale)
      modifies this`serviceItemsMap, this`serviceTypeMap
      ensures Valid() && Registering(reg0, QueriedTypes(queries[..j + 1]), stale')
      ensures serviceTypeMap == TypeAdded(old(serviceTypeMap), queries[j])
    {
      var t := queries[j].serviceType;
      QueriedTypesSnoc(queries, j);
      ghost var before := serviceItemsMap;
      AddServiceType(t, queries[j].queryType);
      stale' := stale - {t};
      if t !in before {
        forall u | u in reg0 ensures serviceItemsMap[u] == reg0[u] {
          assert u != t;
        }
      }
    }

    /**
      The query part of one pass of the first loop: while running on a ready
      network the type query `j` names gets its top-level query and the
      others keep theirs; otherwise no query starts.
    */
    method StartTracked(j: int)
      requires 0 <= j < |queries| && queries[j].serviceType != ""
      requires Valid() && Querying(QueriedTypes(queries[..j]))
      modifies this`queryIdTypeMap, this`queryIdServiceMap, this`nextQueryId
      ensures Valid() && Querying(QueriedTypes(queries[..j + 1]))
      ensures !(running && networkReady) ==> unchanged(this`queryIdServiceMap, this`queryIdTypeMap, this`nextQueryId)
    {
      var t := queries[j].serviceType;
      ghost var types := QueriedTypes(queries[..j]);
      QueriedTypesSnoc(queries, j);
      if !(running && networkReady) {
        return;
      }
      ghost var serviceMap, id := queryIdServiceMap, nextQueryId;
      StartQuery(t);
      forall u | u in types && u != t && running && networkReady
        ensures TopQueries(queryIdServiceMap, u) != {}
      {
        TopQueriesOfOthers(serviceMap, t, u, id);
      }
    }

    /**
      The registry during the second loop of updateServices, with the stale
      types `pending` still to go: the other stale types have left `reg1`,
      and every type that is not stale keeps its list.
    */
    ghost predicate StaleDropped(reg1: map<string, seq<Item>>, stale: set<string>, pending: set<string>)
      reads this`serviceItemsMap
    {
      && serviceItemsMap.Keys == reg1.Keys - (stale - pending)
      && (forall t :: t in serviceItemsMap && t !in stale ==> serviceItemsMap[t] == reg1[t])
    }

    /**
      While running on a ready network, every type in `kept` has its
      top-level query and the stale types already handled have none.
    */
    ghost predicate StaleStopped(kept: set<string>, stale: set<string>, pending: set<string>)
      reads this`queryIdServiceMap, this`running, this`networkReady
    {
      running && networkReady ==>
        && (forall t :: t in kept ==> TopQueries(queryIdServiceMap, t) != {})
        && (forall t :: t in stale - pending ==> TopQueries(queryIdServiceMap, t) == {})
    }

    /** One pass of the second loop of updateServices: the stale type `t` is stopped and removed. */
    method DropStaleType(ghost reg1: map<string, seq<Item>>, ghost kept: set<string>,
                         ghost stale: set<string>, ghost pending: set<string>, t: string)
      requires Valid() && t in pending && pending <= stale && stale <= reg1.Keys && t !in kept
      requires StaleDropped(reg1, stale, pending) && StaleStopped(kept, stale, pending)
      modifies this`serviceItemsMap, this`serviceTypeMap, this`queryIdItemMap, this`queryIdTypeMap
      modifies this`queryIdServiceMap, this`cancelled, this`published
      ensures Valid() && StaleDropped(reg1, stale, pending - {t}) && StaleStopped(kept, stale, pending - {t})
      ensures serviceTypeMap == old(serviceTypeMap) - {t}
      ensures !(running && networkReady) ==> queryIdServiceMap == old(queryIdServiceMap)
    {
      if running && networkReady {
        StopStale(reg1, kept, stale, pending, t);
      }
      assert StaleStopped(kept, stale, pending - {t});
      ghost var before := serviceItemsMap;
      assert t in before && before.Keys == reg1.Keys - (stale - pending);
      RemoveServiceType(t);
      assert serviceItemsMap == before - {t};
      assert serviceItemsMap.Keys == reg1.Keys - (stale - (pending - {t}));
    }

    /** The stopQuery part of one pass of the second loop. */
    method StopStale(ghost reg1: map<string, seq<Item>>, ghost kept: set<string>,
                     ghost stale: set<string>, ghost pending: set<string>, t: string)
      requires Valid() && t in pending && pending <= stale && stale <= reg1.Keys && t !in kept
      requires StaleDropped(reg1, stale, pending) && StaleStopped(kept, stale, pending)
      modifies this`serviceItemsMap, this`queryIdItemMap, this`queryIdTypeMap
      modifies this`queryIdServiceMap, this`cancelled, this`published
      ensures Valid() && StaleDropped(reg1, stale, pending) && StaleStopped(kept, stale, pending - {t})
    {
      ghost var serviceMap, before := queryIdServiceMap, serviceItemsMap;
      StopQuery(t);
      assert serviceItemsMap.Keys == before.Keys;
      forall u | u in serviceItemsMap && u != t ensures serviceItemsMap[u] == before[u] {
      }
      forall u | u != t ensures TopQueries(queryIdServiceMap, u) == TopQueries(serviceMap, u) {
        TopQueriesOfOthers(serviceMap, t, u, 0);
      }
    }

    /**
      setRunning: a changed flag is stored; on a ready network, switching on
      starts the top-level query of every registered type and switching off
      stops them all.
    */
    method SetRunning(arg: bool)
      requires Valid()
      modifies this`running, this`serviceItemsMap, this`queryIdItemMap, this`queryIdTypeMap
      modifies this`queryIdServiceMap, this`nextQueryId, this`cancelled, this`published
      ensures Valid() && running == arg
      ensures old(running) == arg || !networkReady ==>
        Answerable() == old(Answerable()) && queryIdServiceMap == old(queryIdServiceMap)
      ensures old(running) != arg && networkReady && arg ==>
        && serviceItemsMap == old(serviceItemsMap) && queryIdItemMap == old(queryIdItemMap)
        && cancelled == old(cancelled) && published == old(published)
        && (forall t :: t in serviceItemsMap ==> |TopQueries(queryIdServiceMap, t)| == 1)
        && (forall id :: id in old(queryIdTypeMap) ==>
              id in queryIdTypeMap && queryIdTypeMap[id] == old(queryIdTypeMap)[id])
        && (forall id :: id in old(queryIdServiceMap) ==>
              id in queryIdServiceMap && queryIdServiceMap[id] == old(queryIdServiceMap)[id])
        && (forall id :: id in queryIdServiceMap && id !in old(queryIdServiceMap) ==>
              id >= old(nextQueryId) && id in queryIdTypeMap && queryIdTypeMap[id] == RegisteredType(queryIdServiceMap[id]))
      ensures old(running) != arg && networkReady && !arg ==>
        && serviceItemsMap.Keys == old(serviceItemsMap).Keys
        && forall t :: t in serviceItemsMap ==> TopQueries(queryIdServiceMap, t) == {}
    {
      if running == arg {
        return;
      }
      running := arg;
      if !networkReady {
        return;
      }
      if running {
        StartQueries();
      } else {
        StopQueries();
      }
    }

    /**
      deinitializeMdns, apart from the transport's own teardown: while
      running, every service type is removed and the three query maps are
      cleared; the transport is gone and lookup is no longer ready. Nothing
      happens when there is no transport.
    */
    method DeinitializeMdns()
      requires Valid()
      modifies this`serviceItemsMap, this`serviceTypeMap, this`queryIdItemMap, this`queryIdTypeMap
      modifies this`queryIdServiceMap, this`cancelled, this`published, this`transportOpen, this`lookupReady
      ensures Valid()
      ensures !old(transportOpen) ==>
        && Answerable() == old(Answerable()) && serviceTypeMap == old(serviceTypeMap)
        && queryIdServiceMap == old(queryIdServiceMap) && !transportOpen && lookupReady == old(lookupReady)
      ensures old(transportOpen) ==> !transportOpen && !lookupReady
      ensures old(transportOpen) && running ==>
        && serviceItemsMap == map[] && serviceTypeMap == map[]
        && queryIdItemMap == map[] && queryIdTypeMap == map[] && queryIdServiceMap == map[]
        && cancelled == old(cancelled) + old(queryIdItemMap).Keys
        && published == Cleared(old(published), queries, |queries|, old(serviceItemsMap).Keys)
      ensures old(transportOpen) && !running ==>
        && Answerable() == old(Answerable()) && serviceTypeMap == old(serviceTypeMap)
        && queryIdServiceMap == old(queryIdServiceMap)
    {
      if !transportOpen {
        return;
      }
      if running {
        ForgetAll();
      }
      transportOpen := false;
      lookupReady := false;
    }

    /** The running part of deinitializeMdns: all service types removed, then the three query maps cleared. */
    method ForgetAll()
      requires Valid()
      modifies this`serviceItemsMap, this`serviceTypeMap, this`queryIdItemMap, this`queryIdTypeMap
      modifies this`queryIdServiceMap, this`cancelled, this`published
      ensures Valid()
      ensures serviceItemsMap == map[] && serviceTypeMap == map[]
      ensures queryIdItemMap == map[] && queryIdTypeMap == map[] && queryIdServiceMap == map[]
      ensures cancelled == old(cancelled) + old(queryIdItemMap).Keys
      ensures published == Cleared(old(published), queries, |queries|, old(serviceItemsMap).Keys)
    {
      RemoveAllServiceTypes();
      queryIdItemMap, queryIdServiceMap, queryIdTypeMap := map[], map[], map[];
    }

    /** The record type registered for `t`, or the default value when `t` is not registered. */
    function RegisteredType(t: string): RecordType
      reads this`serviceTypeMap
    {
      if t in serviceTypeMap then serviceTypeMap[t] else Unset
    }

    /** The search loop of startQuery, stopQuery and refreshQuery: a top-level query of type `t`, if any. */
    method FindQuery(t: string) returns (found: bool, id: int)
      ensures found <==> TopQueries(queryIdServiceMap, t) != {}
      ensures found ==> id in TopQueries(queryIdServiceMap, t)
    {
      var pending := queryIdServiceMap.Keys;
      while pending != {}
        invariant pending <= queryIdServiceMap.Keys
        invariant forall x :: x in queryIdServiceMap && x !in pending ==> queryIdServiceMap[x] != t
        decreases pending
      {
        assert (forall x :: x !in pending) ==> pending == {};
        var x :| x in pending;
        if queryIdServiceMap[x] == t {
          assert x in TopQueries(queryIdServiceMap, t);
          return true, x;
        }
        pending := pending - {x};
      }
      assert forall x :: x !in TopQueries(queryIdServiceMap, t);
      return false, 0;
    }

    /** The transport starts a top-level query of type `t`: the fresh id is recorded in the type and service maps. */
    method IssueQuery(t: string, queryType: RecordType) returns (id: int)
      requires Valid() && TopQueries(queryIdServiceMap, t) == {}
      modifies this`queryIdTypeMap, this`queryIdServiceMap, this`nextQueryId
      ensures Valid()
      ensures id == old(nextQueryId) && id !in old(queryIdTypeMap) && nextQueryId == id + 1
      ensures queryIdTypeMap == old(queryIdTypeMap)[id := queryType]
      ensures queryIdServiceMap == old(queryIdServiceMap)[id := t]
      ensures TopQueries(queryIdServiceMap, t) == {id}
    {
      StartKeepsConsistent(serviceItemsMap, serviceTypeMap, queryIdTypeMap, queryIdServiceMap, queryIdItemMap, nextQueryId, t, queryType);
      id := nextQueryId;
      nextQueryId := nextQueryId + 1;
      queryIdTypeMap := queryIdTypeMap[id := queryType];
      queryIdServiceMap := queryIdServiceMap[id := t];
      assert TopQueries(queryIdServiceMap, t) == {id};
    }

    /** The transport cancels the top-level query `id` of type `t`, which is forgotten by the type and service maps. */
    method CancelQuery(t: string, id: int)
      requires Valid() && id in TopQueries(queryIdServiceMap, t)
      modifies this`queryIdTypeMap, this`queryIdServiceMap, this`cancelled
      ensures Valid()
      ensures TopQueries(old(queryIdServiceMap), t) == {id} && TopQueries(queryIdServiceMap, t) == {}
      ensures queryIdTypeMap == old(queryIdTypeMap) - {id}
      ensures queryIdServiceMap == old(queryIdServiceMap) - {id}
      ensures cancelled == old(cancelled) + {id}
    {
      AtMostOneTopQuery(queryIdServiceMap, t);
      StopKeepsConsistent(serviceItemsMap, serviceTypeMap, queryIdTypeMap, queryIdServiceMap, queryIdItemMap, nextQueryId, t);
      cancelled := cancelled + {id};
      queryIdTypeMap := queryIdTypeMap - {id};
      queryIdServiceMap := queryIdServiceMap - {id};
    }

    /**
      startQuery: nothing when a top-level query of type `t` runs already;
      otherwise a fresh id is taken from the transport and recorded with the
      registered record type and the service type.
    */
    method StartQuery(t: string)
      requires Valid()
      modifies this`queryIdTypeMap, this`queryIdServiceMap, this`nextQueryId
      ensures Valid()
      ensures TopQueries(old(queryIdServiceMap), t) != {} ==>
        && queryIdTypeMap == old(queryIdTypeMap) && queryIdServiceMap == old(queryIdServiceMap)
        && nextQueryId == old(nextQueryId)
      ensures TopQueries(old(queryIdServiceMap), t) == {} ==>
        && old(nextQueryId) !in old(queryIdTypeMap)
        && queryIdTypeMap == old(queryIdTypeMap)[old(nextQueryId) := RegisteredType(t)]
        && queryIdServiceMap == old(queryIdServiceMap)[old(nextQueryId) := t]
        && nextQueryId == old(nextQueryId) + 1
      ensures |TopQueries(queryIdServiceMap, t)| == 1
    {
      var found, _ := FindQuery(t);
      if found {
        AtMostOneTopQuery(queryIdServiceMap, t);
        return;
      }
      var queryType := RegisteredType(t);
      var id := IssueQuery(t, queryType);
    }

    /**
      stopQuery: when a top-level query of type `t` runs, it is cancelled and
      forgotten and the items of `t` are cleared; otherwise nothing happens.
    */
    method StopQuery(t: string)
      requires Valid()
      modifies this`serviceItemsMap, this`queryIdItemMap, this`queryIdTypeMap, this`queryIdServiceMap
      modifies this`cancelled, this`published
      ensures Valid()
      ensures TopQueries(queryIdServiceMap, t) == {}
      ensures queryIdServiceMap == old(queryIdServiceMap) - TopQueries(old(queryIdServiceMap), t)
      ensures TopQueries(old(queryIdServiceMap), t) == {} ==>
        && serviceItemsMap == old(serviceItemsMap) && published == old(published)
        && queryIdItemMap == old(queryIdItemMap) && queryIdTypeMap == old(queryIdTypeMap)
        && cancelled == old(cancelled)
      ensures TopQueries(old(queryIdServiceMap), t) != {} ==>
        var top := TopQueries(old(queryIdServiceMap), t);
        var gone := ClearGone(old(serviceItemsMap), old(queryIdItemMap), t);
        && queryIdTypeMap == old(queryIdTypeMap) - top - gone
        && queryIdItemMap == old(queryIdItemMap) - gone
        && cancelled == old(cancelled) + top + gone
        && serviceItemsMap == ClearedRegistry(old(serviceItemsMap), t)
        && (t in old(serviceItemsMap) ==> published == Republished(old(published), t))
        && (t !in old(serviceItemsMap) ==> published == old(published))
    {
      var found, id := FindQuery(t);
      if !found {
        return;
      }
      CancelQuery(t, id);
      ClearItems(t);
    }

    /**
      refreshQuery: when a top-level query of type `t` runs, it is cancelled
      and forgotten, the items of `t` go through one purge cycle, and a fresh
      top-level query of `t` is started; otherwise nothing happens.
    */
    method RefreshQuery(t: string)
      requires Valid()
      modifies this`serviceItemsMap, this`queryIdItemMap, this`queryIdTypeMap, this`queryIdServiceMap
      modifies this`nextQueryId, this`cancelled, this`published
      ensures Valid()
      ensures TopQueries(old(queryIdServiceMap), t) == {} ==>
        && serviceItemsMap == old(serviceItemsMap) && published == old(published)
        && queryIdItemMap == old(queryIdItemMap) && queryIdTypeMap == old(queryIdTypeMap)
        && queryIdServiceMap == old(queryIdServiceMap) && cancelled == old(cancelled)
        && nextQueryId == old(nextQueryId)
      ensures TopQueries(old(queryIdServiceMap), t) != {} ==>
        var top := TopQueries(old(queryIdServiceMap), t);
        var gone := PurgeGone(old(serviceItemsMap), old(queryIdItemMap), t, unicastErrorThreshold);
        var newId := old(nextQueryId);
        && newId !in old(queryIdTypeMap) && newId !in old(queryIdServiceMap)
        && queryIdServiceMap == (old(queryIdServiceMap) - top)[newId := t]
        && queryIdTypeMap == (old(queryIdTypeMap) - top - gone)[newId := RegisteredType(t)]
        && queryIdItemMap == old(queryIdItemMap) - gone
        && cancelled == old(cancelled) + top + gone
        && nextQueryId == newId + 1
        && serviceItemsMap == PurgedRegistry(old(serviceItemsMap), t, unicastErrorThreshold)
        && (PurgeEvicts(old(serviceItemsMap), t, unicastErrorThreshold) ==>
             published == old(published) + Views(serviceItemsMap[t], queries, |queries|, t, filter, matches))
        && (!PurgeEvicts(old(serviceItemsMap), t, unicastErrorThreshold) ==> published == old(published))
        && TopQueries(queryIdServiceMap, t) == {newId}
    {
      var found, id := FindQuery(t);
      if !found {
        return;
      }
      var queryType := RegisteredType(t);
      RetireQuery(t, id);
      id := IssueQuery(t, queryType);
    }

    /** The first half of refreshQuery: cancel the running query `id` of `t` and purge the items of `t`. */
    method RetireQuery(t: string, id: int)
      requires Valid() && id in TopQueries(queryIdServiceMap, t)
      modifies this`serviceItemsMap, this`queryIdItemMap, this`queryIdTypeMap, this`queryIdServiceMap
      modifies this`cancelled, this`published
      ensures Valid()
      ensures TopQueries(old(queryIdServiceMap), t) == {id} && TopQueries(queryIdServiceMap, t) == {}
      ensures var gone := PurgeGone(old(serviceItemsMap), old(queryIdItemMap), t, unicastErrorThreshold);
        && queryIdServiceMap == old(queryIdServiceMap) - {id}
        && queryIdTypeMap == old(queryIdTypeMap) - {id} - gone
        && queryIdItemMap == old(queryIdItemMap) - gone
        && cancelled == old(cancelled) + {id} + gone
      ensures serviceItemsMap == PurgedRegistry(old(serviceItemsMap), t, unicastErrorThreshold)
      ensures PurgeEvicts(old(serviceItemsMap), t, unicastErrorThreshold) ==>
        published == old(published) + Views(serviceItemsMap[t], queries, |queries|, t, filter, matches)
      ensures !PurgeEvicts(old(serviceItemsMap), t, unicastErrorThreshold) ==> published == old(published)
    {
      CancelQuery(t, id);
      PurgeItems(t);
    }

    /**
      startQueries: starts the top-level query of every registered service
      type that has none; the queries already running are kept.
    */
    method StartQueries()
      requires Valid()
      modifies this`queryIdTypeMap, this`queryIdServiceMap, this`nextQueryId
      ensures Valid()
      ensures forall t :: t in serviceItemsMap ==> |TopQueries(queryIdServiceMap, t)| == 1
      ensures forall id :: id in old(queryIdServiceMap) ==>
        id in queryIdServiceMap && queryIdServiceMap[id] == old(queryIdServiceMap)[id]
      ensures forall id :: id in queryIdServiceMap && id !in old(queryIdServiceMap) ==>
        queryIdServiceMap[id] in serviceItemsMap && id >= old(nextQueryId)
      ensures forall id :: id in queryIdServiceMap && id !in old(queryIdServiceMap) ==>
        id in queryIdTypeMap && queryIdTypeMap[id] == RegisteredType(queryIdServiceMap[id])
      ensures forall id :: id in old(queryIdTypeMap) ==> id in queryIdTypeMap && queryIdTypeMap[id] == old(queryIdTypeMap)[id]
    {
      var pending := serviceItemsMap.Keys;  // the map iterator walks a copy
      while pending != {}
        invariant Valid()
        invariant pending <= serviceItemsMap.Keys
        invariant forall u :: u in serviceItemsMap && u !in pending ==> TopQueries(queryIdServiceMap, u) != {}
        invariant forall id :: id in old(queryIdServiceMap) ==>
          id in queryIdServiceMap && queryIdServiceMap[id] == old(queryIdServiceMap)[id]
        invariant forall id :: id in queryIdServiceMap && id !in old(queryIdServiceMap) ==>
          queryIdServiceMap[id] in serviceItemsMap && id >= old(nextQueryId)
        invariant forall id :: id in queryIdServiceMap && id !in old(queryIdServiceMap) ==>
          id in queryIdTypeMap && queryIdTypeMap[id] == RegisteredType(queryIdServiceMap[id])
        invariant forall id :: id in old(queryIdTypeMap) ==> id in queryIdTypeMap && queryIdTypeMap[id] == old(queryIdTypeMap)[id]
        invariant nextQueryId >= old(nextQueryId)
        decreases pending
      {
        assert (forall x :: x !in pending) ==> pending == {};
        var t :| t in pending;
        ghost var before := queryIdServiceMap;
        ghost var id := nextQueryId;
        StartQuery(t);
        forall u | u in serviceItemsMap && u !in pending - {t} && u != t
          ensures TopQueries(queryIdServiceMap, u) != {}
        {
          TopQueriesOfOthers(before, t, u, id);
        }
        pending := pending - {t};
      }
      forall t | t in serviceItemsMap ensures |TopQueries(queryIdServiceMap, t)| == 1 {
        AtMostOneTopQuery(queryIdServiceMap, t);
      }
    }

    /**
      stopQueries: stops the top-level query of every registered service type;
      the items of each type whose query ran are cleared, the other lists and
      the queries of types no longer registered are kept.
    */
    method StopQueries()
      requires Valid()
      modifies this`serviceItemsMap, this`queryIdItemMap, this`queryIdTypeMap, this`queryIdServiceMap
      modifies this`cancelled, this`published
      ensures Valid()
      ensures queryIdServiceMap == old(queryIdServiceMap) - StoppedQueries(old(queryIdServiceMap), old(serviceItemsMap).Keys)
      ensures serviceItemsMap.Keys == old(serviceItemsMap).Keys
      ensures forall t :: t in serviceItemsMap ==>
        serviceItemsMap[t] == if TopQueries(old(queryIdServiceMap), t) != {} then [] else old(serviceItemsMap)[t]
      ensures forall t :: t in serviceItemsMap ==> TopQueries(queryIdServiceMap, t) == {}
    {
      var pending := serviceItemsMap.Keys;  // the map iterator walks a copy
      StoppingStart(serviceItemsMap, queryIdServiceMap);
      while pending != {}
        invariant Valid()
        invariant Stopping(old(serviceItemsMap), old(queryIdServiceMap), serviceItemsMap, queryIdServiceMap, pending)
        decreases pending
      {
        assert (forall x :: x !in pending) ==> pending == {};
        var t :| t in pending;
        ghost var reg, serviceMap := serviceItemsMap, queryIdServiceMap;
        StopQuery(t);
        StoppingStep(old(serviceItemsMap), old(queryIdServiceMap), reg, serviceMap, pending, t,
                     serviceItemsMap, queryIdServiceMap);
        pending := pending - {t};
      }
      StoppingEnd(old(serviceItemsMap), old(queryIdServiceMap), serviceItemsMap, queryIdServiceMap);
    }

    /**
      unicastLookup: refreshes the top-level query of every registered service
      type; each type whose query ran goes through one purge cycle and gets a
      fresh query, the others are left alone.
    */
    method UnicastLookup()
      requires Valid()
      modifies this`serviceItemsMap, this`queryIdItemMap, this`queryIdTypeMap, this`queryIdServiceMap
      modifies this`nextQueryId, this`cancelled, this`published
      ensures Valid()
      ensures serviceItemsMap.Keys == old(serviceItemsMap).Keys
      ensures forall t :: t in serviceItemsMap ==>
        serviceItemsMap[t] == if TopQueries(old(queryIdServiceMap), t) != {}
          then Purged(old(serviceItemsMap)[t], unicastErrorThreshold) else old(serviceItemsMap)[t]
      ensures forall t :: t in serviceItemsMap ==>
        (TopQueries(queryIdServiceMap, t) == {} <==> TopQueries(old(queryIdServiceMap), t) == {})
    {
      var pending := serviceItemsMap.Keys;  // the map iterator walks a copy
      RefreshingStart(serviceItemsMap, queryIdServiceMap, unicastErrorThreshold);
      while pending != {}
        invariant Valid()
        invariant Refreshing(old(serviceItemsMap), old(queryIdServiceMap), unicastErrorThreshold,
                             serviceItemsMap, queryIdServiceMap, pending)
        decreases pending
      {
        assert (forall x :: x !in pending) ==> pending == {};
        var t :| t in pending;
        RefreshPending(t, old(serviceItemsMap), old(queryIdServiceMap), pending);
        pending := pending - {t};
      }
      RefreshingEnd(old(serviceItemsMap), old(queryIdServiceMap), unicastErrorThreshold, serviceItemsMap, queryIdServiceMap);
    }

    /** One step of the walk of unicastLookup: refreshQuery of the pending type `t`. */
    method RefreshPending(t: string, ghost reg0: map<string, seq<Item>>, ghost serviceMap0: map<int, string>,
                          ghost pending: set<string>)
      requires Valid() && t in pending
      requires Refreshing(reg0, serviceMap0, unicastErrorThreshold, serviceItemsMap, queryIdServiceMap, pending)
      modifies this`serviceItemsMap, this`queryIdItemMap, this`queryIdTypeMap, this`queryIdServiceMap
      modifies this`nextQueryId, this`cancelled, this`published
      ensures Valid()
      ensures Refreshing(reg0, serviceMap0, unicastErrorThreshold, serviceItemsMap, queryIdServiceMap, pending - {t})
    {
      ghost var reg, serviceMap, n := serviceItemsMap, queryIdServiceMap, nextQueryId;
      RefreshQuery(t);
      RefreshingStep(reg0, serviceMap0, unicastErrorThreshold, reg, serviceMap, pending, t,
                     serviceItemsMap, queryIdServiceMap, n);
    }

    /** The item a follow-up query `id` was started for: position `k` in the list of type `t`. */
    method FindOwner(id: int) returns (t: string, k: int)
      requires Valid() && id in queryIdItemMap
      ensures t == queryIdItemMap[id].serviceType && t in serviceItemsMap
      ensures k == IndexOf(serviceItemsMap[t], queryIdItemMap[id].name) && 0 <= k < |serviceItemsMap[t]|
      ensures serviceItemsMap[t][k].name == queryIdItemMap[id].name && id in serviceItemsMap[t][k].outstanding
    {
      var r := queryIdItemMap[id];
      assert LiveIn(serviceItemsMap, r);
      t := r.serviceType;
      k := FindItem(serviceItemsMap[t], r.name);
      assert id in Owned(queryIdItemMap, r);
    }

    /**
      The common step of the TXT, SRV and A branches of resultsReady: the
      answering follow-up query `id` is cancelled and forgotten, and its item
      (position `k` of type `t`) takes the new data `it`, which no longer
      waits for `id`.
    */
    method Answer(id: int, t: string, k: int, it: Item)
      requires Valid() && id in queryIdItemMap && t in serviceItemsMap && 0 <= k < |serviceItemsMap[t]|
      requires queryIdItemMap[id] == ItemRef(t, serviceItemsMap[t][k].name)
      requires it.name == serviceItemsMap[t][k].name && it.serviceType == t
      requires it.outstanding == serviceItemsMap[t][k].outstanding - {id}
      modifies this`serviceItemsMap, this`queryIdItemMap, this`queryIdTypeMap, this`cancelled
      ensures Valid()
      ensures serviceItemsMap == Replaced(old(serviceItemsMap), t, k, it)
      ensures queryIdItemMap == old(queryIdItemMap) - {id} && queryIdTypeMap == old(queryIdTypeMap) - {id}
      ensures cancelled == old(cancelled) + {id}
    {
      var r := queryIdItemMap[id];
      assert Owned(queryIdItemMap - {id}, r) == Owned(queryIdItemMap, r) - {id};
      ReplaceItemKeepsLink(serviceItemsMap, serviceTypeMap, queryIdItemMap, queryIdItemMap - {id}, t, k, it);
      DropItemIdsKeepsLedger(queryIdTypeMap, queryIdServiceMap, queryIdItemMap, nextQueryId, {id});
      cancelled := cancelled + {id};
      queryIdTypeMap := queryIdTypeMap - {id};
      queryIdItemMap := queryIdItemMap - {id};
      serviceItemsMap := serviceItemsMap[t := serviceItemsMap[t][k := it]];
    }

    /** An item setter: item `k` of type `t` takes the new data `it`, same identity and same open queries. */
    method ReplaceItem(t: string, k: int, it: Item)
      requires Valid() && t in serviceItemsMap && 0 <= k < |serviceItemsMap[t]|
      requires it.name == serviceItemsMap[t][k].name && it.serviceType == t
      requires it.outstanding == serviceItemsMap[t][k].outstanding
      modifies this`serviceItemsMap
      ensures Valid()
      ensures serviceItemsMap == Replaced(old(serviceItemsMap), t, k, it)
    {
      ReplaceKeepsConsistent(serviceItemsMap, serviceTypeMap, queryIdTypeMap, queryIdServiceMap, queryIdItemMap, nextQueryId, t, k, it);
      serviceItemsMap := serviceItemsMap[t := serviceItemsMap[t][k := it]];
    }

    /**
      A follow-up query of record type `kind` started on behalf of item `k` of
      type `t`: the transport hands out a fresh id, the item waits for it, and
      the ledger records its type and its owner.
    */
    method AddRequest(t: string, k: int, kind: RecordType) returns (id: int)
      requires Valid() && t in serviceItemsMap && 0 <= k < |serviceItemsMap[t]| && IsFollowUp(kind)
      modifies this`serviceItemsMap, this`queryIdItemMap, this`queryIdTypeMap, this`nextQueryId
      ensures Valid()
      ensures id == old(nextQueryId) && nextQueryId == id + 1
      ensures id !in old(queryIdTypeMap) && id !in old(queryIdItemMap) && id !in old(queryIdServiceMap)
      ensures var it := old(serviceItemsMap)[t][k];
        && serviceItemsMap == Replaced(old(serviceItemsMap), t, k, Awaiting(it, {id}))
        && queryIdTypeMap == old(queryIdTypeMap)[id := kind]
        && queryIdItemMap == old(queryIdItemMap)[id := ItemRef(t, it.name)]
    {
      var items := serviceItemsMap[t];
      var r := ItemRef(t, items[k].name);
      id := nextQueryId;
      IssueFollowUpKeepsLedger(queryIdTypeMap, queryIdServiceMap, queryIdItemMap, nextQueryId, kind, r);
      var it := Awaiting(items[k], {id});
      assert Owned(queryIdItemMap[id := r], r) == Owned(queryIdItemMap, r) + {id};
      ReplaceItemKeepsLink(serviceItemsMap, serviceTypeMap, queryIdItemMap, queryIdItemMap[id := r], t, k, it);
      nextQueryId := nextQueryId + 1;
      queryIdTypeMap := queryIdTypeMap[id := kind];
      queryIdItemMap := queryIdItemMap[id := r];
      serviceItemsMap := serviceItemsMap[t := items[k := it]];
    }

    /**
      The resolved check at the end of every branch of resultsReady that found
      an item (position `k` of type `t`): when it waits for no more queries,
      its type is republished and it is marked updated with a reset error
      count; otherwise nothing changes.
    */
    method MarkIfResolved(t: string, k: int)
      requires Valid() && t in serviceItemsMap && 0 <= k < |serviceItemsMap[t]|
      modifies this`serviceItemsMap, this`published
      ensures Valid()
      ensures var it := old(serviceItemsMap)[t][k];
        serviceItemsMap == Replaced(old(serviceItemsMap), t, k, MarkedResolved(it))
      ensures !HasOutstandingRequests(old(serviceItemsMap)[t][k]) ==>
        published == old(published) + Views(old(serviceItemsMap)[t], queries, |queries|, t, filter, matches)
      ensures HasOutstandingRequests(old(serviceItemsMap)[t][k]) ==> published == old(published)
    {
      var it := serviceItemsMap[t][k];
      if HasOutstandingRequests(it) {
        assert serviceItemsMap[t][k := it] == serviceItemsMap[t];
        return;
      }
      UpdateServiceType(t);
      ReplaceItem(t, k, MarkedResolved(it));
    }

    /**
      The TXT branch of resultsReady, up to the resolved check: the item of the
      answering query `id`, at position `k` of type `t`, stores the texts.
    */
    method HandleTxt(id: int, r: Record) returns (t: string, k: int)
      requires Valid() && id in queryIdItemMap
      modifies this`serviceItemsMap, this`queryIdItemMap, this`queryIdTypeMap, this`cancelled
      ensures Valid()
      ensures t == old(queryIdItemMap)[id].serviceType && t in old(serviceItemsMap)
      ensures k == IndexOf(old(serviceItemsMap)[t], old(queryIdItemMap)[id].name) && 0 <= k < |old(serviceItemsMap)[t]|
      ensures serviceItemsMap == Replaced(old(serviceItemsMap), t, k, TxtAnswered(old(serviceItemsMap)[t][k], id, r))
      ensures queryIdItemMap == old(queryIdItemMap) - {id} && queryIdTypeMap == old(queryIdTypeMap) - {id}
      ensures cancelled == old(cancelled) + {id}
    {
      t, k := FindOwner(id);
      Answer(id, t, k, TxtAnswered(serviceItemsMap[t][k], id, r));
    }

    /**
      The A and AAAA branch of resultsReady, up to the resolved check: the item
      of the answering query `id`, at position `k` of type `t`, stores the address.
    */
    method HandleAddress(id: int, r: Record) returns (t: string, k: int)
      requires Valid() && id in queryIdItemMap
      modifies this`serviceItemsMap, this`queryIdItemMap, this`queryIdTypeMap, this`cancelled
      ensures Valid()
      ensures t == old(queryIdItemMap)[id].serviceType && t in old(serviceItemsMap)
      ensures k == IndexOf(old(serviceItemsMap)[t], old(queryIdItemMap)[id].name) && 0 <= k < |old(serviceItemsMap)[t]|
      ensures serviceItemsMap == Replaced(old(serviceItemsMap), t, k, AddressAnswered(old(serviceItemsMap)[t][k], id, r))
      ensures queryIdItemMap == old(queryIdItemMap) - {id} && queryIdTypeMap == old(queryIdTypeMap) - {id}
      ensures cancelled == old(cancelled) + {id}
    {
      t, k := FindOwner(id);
      Answer(id, t, k, AddressAnswered(serviceItemsMap[t][k], id, r));
    }

    /**
      The SRV branch of resultsReady, up to the resolved check: the item of the
      answering query `id`, at position `k` of type `t`, stores host name and
      port and now waits for one fresh A query instead, so it is unresolved.
    */
    method HandleSrv(id: int, r: Record) returns (t: string, k: int)
      requires Valid() && id in queryIdItemMap
      modifies this`serviceItemsMap, this`queryIdItemMap, this`queryIdTypeMap, this`nextQueryId, this`cancelled
      ensures Valid()
      ensures t == old(queryIdItemMap)[id].serviceType && t in old(serviceItemsMap)
      ensures k == IndexOf(old(serviceItemsMap)[t], old(queryIdItemMap)[id].name) && 0 <= k < |old(serviceItemsMap)[t]|
      ensures var n, it := old(nextQueryId), old(serviceItemsMap)[t][k];
        && n !in old(queryIdTypeMap) && nextQueryId == n + 1
        && serviceItemsMap ==
             Replaced(old(serviceItemsMap), t, k, SrvAnswered(it, id, r, n))
        && queryIdItemMap == (old(queryIdItemMap) - {id})[n := ItemRef(t, it.name)]
        && queryIdTypeMap == (old(queryIdTypeMap) - {id})[n := A]
        && cancelled == old(cancelled) + {id}
      ensures HasOutstandingRequests(serviceItemsMap[t][k])
    {
      t, k := FindOwner(id);
      var it := Answered(serviceItemsMap[t][k], id).(hostName := r.name, port := r.port);
      Answer(id, t, k, it);
      var aId := AddRequest(t, k, A);
      ReplacedTwice(old(serviceItemsMap), t, k, it, Awaiting(it, {aId}));
    }

    /**
      The SRV branch of resultsReady as a change of the answerable state. The
      item now waits for the new A query, so the resolved check cannot fire.
    */
    method AnswerSrv(id: int, r: Record)
      requires Valid() && id in queryIdItemMap
      modifies this`serviceItemsMap, this`queryIdItemMap, this`queryIdTypeMap, this`nextQueryId, this`cancelled
      ensures Valid()
      ensures Answerable() == AfterAnswer(old(Answerable()), id, Srv, r, queries, filter, matches)
      ensures serviceItemsMap.Keys == old(serviceItemsMap).Keys
      ensures id !in queryIdItemMap && id !in queryIdTypeMap && id in cancelled
    {
      assert id in queryIdTypeMap;
      var t, k := HandleSrv(id, r);
      AfterSrvAnswerIs(old(serviceItemsMap), old(queryIdItemMap), old(queryIdTypeMap), old(nextQueryId), old(cancelled), old(published),
                       serviceItemsMap, queryIdItemMap, queryIdTypeMap, nextQueryId, cancelled,
                       id, r, t, k, queries, filter, matches);
      assert old(Answerable()) == Snapshot(old(serviceItemsMap), old(queryIdItemMap), old(queryIdTypeMap), old(nextQueryId), old(cancelled), old(published));
      assert Answerable() == Snapshot(serviceItemsMap, queryIdItemMap, queryIdTypeMap, nextQueryId, cancelled, published);
    }

    /**
      The two follow-up queries a PTR answer starts for item `k` of type `t`:
      first TXT, then SRV, with consecutive fresh ids; the item waits for both.
    */
    method StartResolving(t: string, k: int)
      requires Valid() && t in serviceItemsMap && 0 <= k < |serviceItemsMap[t]|
      modifies this`serviceItemsMap, this`queryIdItemMap, this`queryIdTypeMap, this`nextQueryId
      ensures Valid()
      ensures old(nextQueryId) !in old(queryIdTypeMap) && old(nextQueryId) + 1 !in old(queryIdTypeMap)
      ensures nextQueryId == old(nextQueryId) + 2
      ensures serviceItemsMap == Resolving(old(serviceItemsMap), t, k, old(nextQueryId))
      ensures queryIdTypeMap == old(queryIdTypeMap)[old(nextQueryId) := Txt][old(nextQueryId) + 1 := Srv]
      ensures var r := ItemRef(t, old(serviceItemsMap)[t][k].name);
        queryIdItemMap == old(queryIdItemMap)[old(nextQueryId) := r][old(nextQueryId) + 1 := r]
    {
      var it := serviceItemsMap[t][k];
      var txtId := AddRequest(t, k, Txt);
      ghost var reg, typeMap, itemMap := serviceItemsMap, queryIdTypeMap, queryIdItemMap;
      assert reg[t][k] == Awaiting(it, {txtId});
      var srvId := AddRequest(t, k, Srv);
      ReplacedTwice(old(serviceItemsMap), t, k, Awaiting(it, {txtId}),
                    Awaiting(Awaiting(it, {txtId}), {srvId}));
    }

    /**
      The PTR branch of resultsReady for a record with a positive TTL: the
      instance `name` of type `t` is upserted and starts resolving. `fault`
      is the dereference of the null item addItem yields for an unregistered
      type; nothing changes then.
    */
    method AnnounceItem(t: string, name: string) returns (fault: bool)
      requires Valid()
      modifies this`serviceItemsMap, this`queryIdItemMap, this`queryIdTypeMap, this`nextQueryId
      ensures Valid()
      ensures fault <==> t !in old(serviceItemsMap)
      ensures fault ==> Answerable() == old(Answerable())
      ensures !fault ==> Answerable() == AfterAnnounce(old(Answerable()), t, name)
    {
      var item := AddItem(name, t);
      if item.None? {
        return true;
      }
      var k := FindItem(serviceItemsMap[t], name);
      assert k >= 0 by {
        UpsertedProperties(old(serviceItemsMap)[t], name, t);
      }
      ghost var reg, before := serviceItemsMap, old(Answerable());
      assert before == Snapshot(old(serviceItemsMap), old(queryIdItemMap), old(queryIdTypeMap), old(nextQueryId), old(cancelled), old(published));
      StartResolving(t, k);
      fault := false;
      assert Answerable() == Snapshot(serviceItemsMap, queryIdItemMap, queryIdTypeMap, nextQueryId, old(cancelled), old(published));
      AfterAnnounceIs(old(serviceItemsMap), old(queryIdItemMap), old(queryIdTypeMap), old(nextQueryId), old(cancelled), old(published),
                      reg, k, serviceItemsMap, queryIdItemMap, queryIdTypeMap, nextQueryId, t, name);
    }

    /**
      The TXT branch of resultsReady with its resolved check: the texts are
      stored in the item of the answering query `id` (position `k` of type
      `t`); if that was its last open query, its type is republished and it
      is marked updated.
    */
    method AnswerTxt(id: int, r: Record) returns (t: string, k: int)
      requires Valid() && id in queryIdItemMap
      modifies this`serviceItemsMap, this`queryIdItemMap, this`queryIdTypeMap, this`cancelled, this`published
      ensures Valid()
      ensures t == old(queryIdItemMap)[id].serviceType && t in old(serviceItemsMap)
      ensures k == IndexOf(old(serviceItemsMap)[t], old(queryIdItemMap)[id].name) && 0 <= k < |old(serviceItemsMap)[t]|
      ensures var it := TxtAnswered(old(serviceItemsMap)[t][k], id, r);
        && serviceItemsMap == Replaced(old(serviceItemsMap), t, k, MarkedResolved(it))
        && (!HasOutstandingRequests(it) ==>
              published == old(published) + Views(Replaced(old(serviceItemsMap), t, k, it)[t], queries, |queries|, t, filter, matches))
        && (HasOutstandingRequests(it) ==> published == old(published))
      ensures queryIdItemMap == old(queryIdItemMap) - {id} && queryIdTypeMap == old(queryIdTypeMap) - {id}
      ensures cancelled == old(cancelled) + {id}
      ensures Answerable() == AfterAnswer(old(Answerable()), id, Txt, r, queries, filter, matches)
    {
      t, k := HandleTxt(id, r);
      ghost var it := TxtAnswered(old(serviceItemsMap)[t][k], id, r);
      ghost var reg := serviceItemsMap;
      MarkIfResolved(t, k);
      ReplacedTwice(old(serviceItemsMap), t, k, it, MarkedResolved(it));
      AfterDataAnswerIs(old(serviceItemsMap), old(queryIdItemMap), old(queryIdTypeMap), old(nextQueryId), old(cancelled), old(published),
                        serviceItemsMap, queryIdItemMap, queryIdTypeMap, cancelled, published,
                        id, Txt, r, t, k, it, queries, filter, matches);
      assert old(Answerable()) == Snapshot(old(serviceItemsMap), old(queryIdItemMap), old(queryIdTypeMap), old(nextQueryId), old(cancelled), old(published));
      assert Answerable() == Snapshot(serviceItemsMap, queryIdItemMap, queryIdTypeMap, old(nextQueryId), cancelled, published);
    }

    /**
      The A and AAAA branch of resultsReady with its resolved check: the
      address is stored in the item of the answering query `id` (position `k`
      of type `t`); if that was its last open query, its type is republished
      and it is marked updated.
    */
    method AnswerAddress(id: int, kind: RecordType, r: Record) returns (t: string, k: int)
      requires Valid() && id in queryIdItemMap && (kind == A || kind == Aaaa)
      modifies this`serviceItemsMap, this`queryIdItemMap, this`queryIdTypeMap, this`cancelled, this`published
      ensures Valid()
      ensures t == old(queryIdItemMap)[id].serviceType && t in old(serviceItemsMap)
      ensures k == IndexOf(old(serviceItemsMap)[t], old(queryIdItemMap)[id].name) && 0 <= k < |old(serviceItemsMap)[t]|
      ensures var it := AddressAnswered(old(serviceItemsMap)[t][k], id, r);
        && serviceItemsMap == Replaced(old(serviceItemsMap), t, k, MarkedResolved(it))
        && (!HasOutstandingRequests(it) ==>
              published == old(published) + Views(Replaced(old(serviceItemsMap), t, k, it)[t], queries, |queries|, t, filter, matches))
        && (HasOutstandingRequests(it) ==> published == old(published))
      ensures queryIdItemMap == old(queryIdItemMap) - {id} && queryIdTypeMap == old(queryIdTypeMap) - {id}
      ensures cancelled == old(cancelled) + {id}
      ensures Answerable() == AfterAnswer(old(Answerable()), id, kind, r, queries, filter, matches)
    {
      t, k := HandleAddress(id, r);
      ghost var it := AddressAnswered(old(serviceItemsMap)[t][k], id, r);
      ghost var reg := serviceItemsMap;
      MarkIfResolved(t, k);
      ReplacedTwice(old(serviceItemsMap), t, k, it, MarkedResolved(it));
      AfterDataAnswerIs(old(serviceItemsMap), old(queryIdItemMap), old(queryIdTypeMap), old(nextQueryId), old(cancelled), old(published),
                        serviceItemsMap, queryIdItemMap, queryIdTypeMap, cancelled, published,
                        id, kind, r, t, k, it, queries, filter, matches);
      assert old(Answerable()) == Snapshot(old(serviceItemsMap), old(queryIdItemMap), old(queryIdTypeMap), old(nextQueryId), old(cancelled), old(published));
      assert Answerable() == Snapshot(serviceItemsMap, queryIdItemMap, queryIdTypeMap, old(nextQueryId), cancelled, published);
    }

    /**
      One answer record `r` to query `id` whose recorded type is `kind`, as
      one pass of the loop of resultsReady: PTR answers announce (positive
      TTL) or withdraw the instance named by the record up to its first "._";
      TXT, SRV, A and AAAA answers fill in the item that owns `id`; answers
      of any other type are ignored. `fault` is a null dereference in the
      source: a PTR announcement for an unregistered service type, or an
      answer of an item type for an id that no item owns (any answer after
      the first to such a query, whose ownership the first one removed).
      The state is unchanged then.
    */
    method ProcessRecord(id: int, kind: RecordType, r: Record) returns (fault: bool)
      requires Valid()
      modifies this`serviceItemsMap, this`queryIdItemMap, this`queryIdTypeMap, this`nextQueryId, this`cancelled, this`published
      ensures Valid()
      ensures fault <==>
        || (kind == Ptr && r.ttl > 0 && ServiceOf(queryIdServiceMap, id) !in old(serviceItemsMap))
        || (ItemAnswer(kind) && id !in old(queryIdItemMap))
      ensures fault || !(kind == Ptr || ItemAnswer(kind)) ==>
        Answerable() == old(Answerable())
      ensures Answerable() == AfterRecord(old(Answerable()), queryIdServiceMap, id, kind, r, queries, filter, matches)
      ensures serviceItemsMap.Keys == old(serviceItemsMap).Keys
      ensures ItemAnswer(kind) ==> id !in queryIdItemMap
      ensures ItemAnswer(kind) && !fault ==> id !in queryIdTypeMap && id in cancelled
    {
      fault := false;
      if kind == Ptr {
        fault := ProcessPtr(id, r);
      } else if ItemAnswer(kind) {
        fault := ProcessAnswer(id, kind, r);
      }
    }

    /** The part of the state that handling an answer may change. */
    ghost function Answerable(): Snapshot
      reads this`serviceItemsMap, this`queryIdItemMap, this`queryIdTypeMap, this`nextQueryId, this`cancelled, this`published
    {
      Snapshot(serviceItemsMap, queryIdItemMap, queryIdTypeMap, nextQueryId, cancelled, published)
    }

    /**
      resultsReady: the answer records of query `id`, handled in order under
      the record type the ledger has for `id` (Unset when it has none),
      which is looked up once before the loop. `fault` is the null
      dereference of ProcessRecord, after which nothing more is handled; for
      the item types it is reached by every response with two or more
      records, because the first one already retired `id`.
    */
    method ResultsReady(id: int, answers: seq<Record>) returns (fault: bool)
      requires Valid()
      modifies this`serviceItemsMap, this`queryIdItemMap, this`queryIdTypeMap, this`nextQueryId, this`cancelled, this`published
      ensures Valid()
      ensures serviceItemsMap.Keys == old(serviceItemsMap).Keys
      ensures var kind := if id in old(queryIdTypeMap) then old(queryIdTypeMap)[id] else Unset;
        && (kind == Ptr ==>
              (fault <==> ServiceOf(queryIdServiceMap, id) !in old(serviceItemsMap) &&
                          exists j :: 0 <= j < |answers| && answers[j].ttl > 0))
        && (ItemAnswer(kind) ==>
              (fault <==> |answers| > 0 && (id !in old(queryIdItemMap) || |answers| >= 2)))
        && (ItemAnswer(kind) && answers != [] ==> id !in queryIdItemMap)
      ensures var kind := if id in old(queryIdTypeMap) then old(queryIdTypeMap)[id] else Unset;
        answers == [] || !(kind == Ptr || ItemAnswer(kind)) ==>
          && !fault
          && Answerable() == old(Answerable())
      ensures !fault ==>
        var kind := if id in old(queryIdTypeMap) then old(queryIdTypeMap)[id] else Unset;
        Answerable() == AfterRecords(old(Answerable()), queryIdServiceMap, id, kind, answers, queries, filter, matches)
    {
      var kind := if id in queryIdTypeMap then queryIdTypeMap[id] else Unset;
      ghost var before, keys0 := Answerable(), serviceItemsMap.Keys;
      fault := false;
      var i := 0;
      while i < |answers| && !fault
        invariant 0 <= i <= |answers|
        invariant HandledSoFar(id, kind, answers, i, fault, before, keys0)
      {
        fault := HandleRecord(id, kind, answers, i, before, keys0);
        i := i + 1;
      }
      assert !fault ==> answers[..i] == answers;
    }

    /**
      The loop state of resultsReady after the first `i` records: `before`
      and `keys0` are the state and the service types the loop started from.
    */
    ghost predicate HandledSoFar(id: int, kind: RecordType, answers: seq<Record>, i: nat, fault: bool,
                                 before: Snapshot,
                                 keys0: set<string>)
      reads this`queryIdTypeMap, this`queryIdServiceMap, this`queryIdItemMap, this`nextQueryId
      reads this`serviceItemsMap, this`serviceTypeMap, this`cancelled, this`published, this`queries, this`filter
      requires i <= |answers|
    {
      && Valid()
      && serviceItemsMap.Keys == keys0
      && (kind == Ptr ==>
            (fault <==> ServiceOf(queryIdServiceMap, id) !in keys0 && exists j :: 0 <= j < i && answers[j].ttl > 0))
      && (ItemAnswer(kind) ==> (fault <==> i > 0 && (id !in before.owners || i >= 2)))
      && (ItemAnswer(kind) && i > 0 ==> id !in queryIdItemMap)
      && (i == 0 || !(kind == Ptr || ItemAnswer(kind)) ==> !fault && Answerable() == before)
      && Answerable() == AfterRecords(before, queryIdServiceMap, id, kind, answers[..i], queries, filter, matches)
    }

    /** One pass of the loop of resultsReady: record `i` is handled. */
    method HandleRecord(id: int, kind: RecordType, answers: seq<Record>, i: nat,
                        ghost before: Snapshot,
                        ghost keys0: set<string>)
      returns (fault: bool)
      requires i < |answers| && HandledSoFar(id, kind, answers, i, false, before, keys0)
      modifies this`serviceItemsMap, this`queryIdItemMap, this`queryIdTypeMap, this`nextQueryId, this`cancelled, this`published
      ensures HandledSoFar(id, kind, answers, i + 1, fault, before, keys0)
    {
      fault := ProcessRecord(id, kind, answers[i]);
      AfterRecordsSnoc(before, queryIdServiceMap, id, kind, answers, i, queries, filter, matches);
      assert answers[..i + 1][..i] == answers[..i] && answers[..i + 1][i] == answers[i];
      if kind == Ptr {
        if fault {
          assert 0 <= i < i + 1 && answers[i].ttl > 0;
        } else {
          assert forall j :: 0 <= j < i + 1 && answers[j].ttl > 0 ==> j < i || answers[i].ttl > 0;
        }
      }
    }

    /**
      resultsReady as evidently intended: a record whose item is missing (a
      PTR announcement for an unregistered type, an answer for an id no
      item owns) is skipped instead of dereferencing a null item, and the
      remaining records are still handled. `skipped` counts the skipped
      records.
    */
    method ResultsReadyChecked(id: int, answers: seq<Record>) returns (skipped: nat)
      requires Valid()
      modifies this`serviceItemsMap, this`queryIdItemMap, this`queryIdTypeMap, this`nextQueryId, this`cancelled, this`published
      ensures Valid()
      ensures serviceItemsMap.Keys == old(serviceItemsMap).Keys
      ensures var kind := if id in old(queryIdTypeMap) then old(queryIdTypeMap)[id] else Unset;
        && (kind == Ptr ==>
              skipped == if ServiceOf(queryIdServiceMap, id) in old(serviceItemsMap) then 0 else Announcements(answers))
        && (ItemAnswer(kind) ==>
              skipped == if answers == [] then 0 else if id in old(queryIdItemMap) then |answers| - 1 else |answers|)
        && (ItemAnswer(kind) && answers != [] ==> id !in queryIdItemMap)
      ensures var kind := if id in old(queryIdTypeMap) then old(queryIdTypeMap)[id] else Unset;
        answers == [] || !(kind == Ptr || ItemAnswer(kind)) ==>
          && skipped == 0
          && Answerable() == old(Answerable())
      ensures var kind := if id in old(queryIdTypeMap) then old(queryIdTypeMap)[id] else Unset;
        Answerable() == AfterRecords(old(Answerable()), queryIdServiceMap, id, kind, answers, queries, filter, matches)
      ensures var kind := if id in old(queryIdTypeMap) then old(queryIdTypeMap)[id] else Unset;
        ItemAnswer(kind) && answers != [] ==>
          Answerable() == AfterRecord(old(Answerable()), queryIdServiceMap, id, kind, answers[0], queries, filter, matches)
    {
      var kind := if id in queryIdTypeMap then queryIdTypeMap[id] else Unset;
      ghost var before, keys0 := Answerable(), serviceItemsMap.Keys;
      if ItemAnswer(kind) && answers != [] {
        assert id in before.owners ==> id < before.next;
        OnlyFirstAnswerCounts(before, queryIdServiceMap, id, kind, answers, queries, filter, matches);
      }
      skipped := 0;
      var i := 0;
      while i < |answers|
        invariant 0 <= i <= |answers|
        invariant CheckedSoFar(id, kind, answers, i, skipped, before, keys0)
      {
        skipped := HandleRecordChecked(id, kind, answers, i, skipped, before, keys0);
        i := i + 1;
      }
      assert answers[..i] == answers;
    }

    /** The loop state of the checked resultsReady after the first `i` records. */
    ghost predicate CheckedSoFar(id: int, kind: RecordType, answers: seq<Record>, i: nat, skipped: nat,
                                 before: Snapshot,
                                 keys0: set<string>)
      reads this`queryIdTypeMap, this`queryIdServiceMap, this`queryIdItemMap, this`nextQueryId
      reads this`serviceItemsMap, this`serviceTypeMap, this`cancelled, this`published, this`queries, this`filter
      requires i <= |answers|
    {
      && Valid()
      && serviceItemsMap.Keys == keys0
      && (kind == Ptr ==>
            skipped == if ServiceOf(queryIdServiceMap, id) in keys0 then 0 else Announcements(answers[..i]))
      && (ItemAnswer(kind) ==> skipped == if i == 0 then 0 else if id in before.owners then i - 1 else i)
      && (ItemAnswer(kind) && i > 0 ==> id !in queryIdItemMap)
      && (i == 0 || !(kind == Ptr || ItemAnswer(kind)) ==> skipped == 0 && Answerable() == before)
      && Answerable() == AfterRecords(before, queryIdServiceMap, id, kind, answers[..i], queries, filter, matches)
    }

    /** One pass of the checked loop: record `i` is handled, or skipped when its item is missing. */
    method HandleRecordChecked(id: int, kind: RecordType, answers: seq<Record>, i: nat, skipped: nat,
                               ghost before: Snapshot,
                               ghost keys0: set<string>)
      returns (skipped': nat)
      requires i < |answers| && CheckedSoFar(id, kind, answers, i, skipped, before, keys0)
      modifies this`serviceItemsMap, this`queryIdItemMap, this`queryIdTypeMap, this`nextQueryId, this`cancelled, this`published
      ensures CheckedSoFar(id, kind, answers, i + 1, skipped', before, keys0)
    {
      var missing := ProcessRecord(id, kind, answers[i]);
      skipped' := if missing then skipped + 1 else skipped;
      AfterRecordsSnoc(before, queryIdServiceMap, id, kind, answers, i, queries, filter, matches);
      AnnouncementsSnoc(answers, i);
    }

    /** The PTR pass of ProcessRecord. */
    method ProcessPtr(id: int, r: Record) returns (fault: bool)
      requires Valid()
      modifies this`serviceItemsMap, this`queryIdItemMap, this`queryIdTypeMap, this`nextQueryId, this`cancelled, this`published
      ensures Valid()
      ensures fault <==> r.ttl > 0 && ServiceOf(queryIdServiceMap, id) !in old(serviceItemsMap)
      ensures Answerable() == AfterRecord(old(Answerable()), queryIdServiceMap, id, Ptr, r, queries, filter, matches)
      ensures serviceItemsMap.Keys == old(serviceItemsMap).Keys
    {
      var t := ServiceOf(queryIdServiceMap, id);
      var name := InstanceName(r.name);
      if r.ttl > 0 {
        fault := AnnounceItem(t, name);
      } else {
        RemoveItem(name, t);
        fault := false;
      }
    }

    /** The TXT, SRV, A and AAAA pass of ProcessRecord. */
    method ProcessAnswer(id: int, kind: RecordType, r: Record) returns (fault: bool)
      requires Valid() && ItemAnswer(kind)
      modifies this`serviceItemsMap, this`queryIdItemMap, this`queryIdTypeMap, this`nextQueryId, this`cancelled, this`published
      ensures Valid()
      ensures fault <==> id !in old(queryIdItemMap)
      ensures Answerable() == AfterRecord(old(Answerable()), queryIdServiceMap, id, kind, r, queries, filter, matches)
      ensures serviceItemsMap.Keys == old(serviceItemsMap).Keys
      ensures id !in queryIdItemMap
      ensures !fault ==> id !in queryIdTypeMap && id in cancelled
    {
      if id !in queryIdItemMap {
        assert AfterRecord(old(Answerable()), queryIdServiceMap, id, kind, r, queries, filter, matches) == old(Answerable());
        return true;
      }
      assert AfterRecord(old(Answerable()), queryIdServiceMap, id, kind, r, queries, filter, matches)
          == AfterAnswer(old(Answerable()), id, kind, r, queries, filter, matches);
      var t, k;
      if kind == Txt {
        t, k := AnswerTxt(id, r);
      } else if kind == Srv {
        AnswerSrv(id, r);
      } else {
        t, k := AnswerAddress(id, kind, r);
      }
      fault := false;
    }

    /** With no service type registered, no follow-up query can be linked to an item. */
    lemma NothingLiveWhenEmpty()
      requires Valid() && serviceItemsMap == map[]
      ensures queryIdItemMap == map[]
    {
      assert Linked(serviceItemsMap, queryIdItemMap);
      assert forall id :: id in queryIdItemMap ==> !LiveIn(serviceItemsMap, queryIdItemMap[id]);
      assert forall id :: id !in queryIdItemMap;
    }

    /** An item that is not in the registry owns no ledger id. */
    lemma NothingOwnedByAbsent(r: ItemRef)
      requires Valid() && !LiveIn(serviceItemsMap, r)
      ensures Owned(queryIdItemMap, r) == {}
    {
      forall id | id in queryIdItemMap ensures queryIdItemMap[id] != r {
        assert LiveIn(serviceItemsMap, queryIdItemMap[id]);
      }
    }
  }
}
