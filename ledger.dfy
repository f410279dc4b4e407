/**
  The query ledger's three maps and the invariants that tie them to the item
  registry: which ids exist, which ids an item owns, and that an item's
  outstanding-request set is exactly the set of ledger ids it owns.
*/
module QueryLedger {
  import opened ServiceItems

  /** The follow-up query ids owned by the item `r`. */
  function Owned(itemMap: map<int, ItemRef>, r: ItemRef): set<int>
  {
    set id | id in itemMap && itemMap[id] == r
  }

  /** The follow-up query ids owned by items of type `t` whose name is in `names`. */
  function OwnedBy(itemMap: map<int, ItemRef>, t: string, names: set<string>): set<int>
  {
    set id | id in itemMap && itemMap[id].serviceType == t && itemMap[id].name in names
  }

  /** The names of the items in a list. */
  function NameSet(items: seq<Item>): set<string>
  {
    set it | it in items :: it.name
  }

  /** The top-level query ids of service type `t`. */
  function TopQueries(serviceMap: map<int, string>, t: string): set<int>
  {
    set id | id in serviceMap && serviceMap[id] == t
  }

  /** The top-level query ids of any service type in `types`. */
  function StoppedQueries(serviceMap: map<int, string>, types: set<string>): set<int>
  {
    set id | id in serviceMap && serviceMap[id] in types
  }

  /** At most one top-level query per service type. */
  predicate OneQueryPerType(serviceMap: map<int, string>)
  {
    forall i, j :: i in serviceMap && j in serviceMap && serviceMap[i] == serviceMap[j] ==> i == j
  }

  /**
    Every id has a record type; an id is either top-level (service map) or
    item-owned (item map), never both; item-owned ids are TXT, SRV or A queries;
    at most one top-level query per service type; every id came from the
    transport before `nextId`.
  */
  predicate LedgerOk(typeMap: map<int, RecordType>, serviceMap: map<int, string>,
                     itemMap: map<int, ItemRef>, nextId: int)
  {
    && typeMap.Keys == itemMap.Keys + serviceMap.Keys
    && itemMap.Keys !! serviceMap.Keys
    && (forall id :: id in itemMap ==> IsFollowUp(typeMap[id]))
    && OneQueryPerType(serviceMap)
    && (forall id :: id in typeMap ==> id < nextId)
  }

  /** The registry: the same service types in both maps, each list well formed. */
  predicate RegistryOk(serviceItems: map<string, seq<Item>>, serviceTypes: map<string, RecordType>)
  {
    && serviceItems.Keys == serviceTypes.Keys
    && forall t :: t in serviceItems ==> WellFormedList(serviceItems[t], t)
  }

  predicate LiveIn(serviceItems: map<string, seq<Item>>, r: ItemRef)
  {
    r.serviceType in serviceItems && IndexOf(serviceItems[r.serviceType], r.name) >= 0
  }

  /** Every item-owned id belongs to a live item, and each item's outstanding set is exactly what it owns. */
  predicate Linked(serviceItems: map<string, seq<Item>>, itemMap: map<int, ItemRef>)
  {
    && (forall id :: id in itemMap ==> LiveIn(serviceItems, itemMap[id]))
    && (forall t, k :: t in serviceItems && 0 <= k < |serviceItems[t]| ==>
          serviceItems[t][k].outstanding == Owned(itemMap, ItemRef(t, serviceItems[t][k].name)))
  }

  /** The ledger, the registry and the link between them. */
  predicate Consistent(serviceItems: map<string, seq<Item>>, serviceTypes: map<string, RecordType>,
                       typeMap: map<int, RecordType>, serviceMap: map<int, string>,
                       itemMap: map<int, ItemRef>, nextId: int)
  {
    && LedgerOk(typeMap, serviceMap, itemMap, nextId)
    && RegistryOk(serviceItems, serviceTypes)
    && Linked(serviceItems, itemMap)
  }

  /** Removing item k of type t and forgetting the ids it owns keeps everything consistent. */
  lemma RemoveKeepsConsistent(serviceItems: map<string, seq<Item>>, serviceTypes: map<string, RecordType>,
                              typeMap: map<int, RecordType>, serviceMap: map<int, string>,
                              itemMap: map<int, ItemRef>, nextId: int, t: string, k: int)
    requires Consistent(serviceItems, serviceTypes, typeMap, serviceMap, itemMap, nextId)
    requires t in serviceItems && 0 <= k < |serviceItems[t]|
    ensures var items := serviceItems[t];
      var ids := Owned(itemMap, ItemRef(t, items[k].name));
      Consistent(serviceItems[t := items[..k] + items[k + 1..]], serviceTypes, typeMap - ids, serviceMap, itemMap - ids, nextId)
  {
    RemoveItemKeepsLink(serviceItems, serviceTypes, itemMap, t, k);
    DropItemIdsKeepsLedger(typeMap, serviceMap, itemMap, nextId, Owned(itemMap, ItemRef(t, serviceItems[t][k].name)));
  }

  /** Under the link, an item is fully resolved exactly when no ledger id refers to it. */
  lemma ResolvedIffUnreferenced(serviceItems: map<string, seq<Item>>, itemMap: map<int, ItemRef>, t: string, k: int)
    requires Linked(serviceItems, itemMap)
    requires t in serviceItems && 0 <= k < |serviceItems[t]|
    ensures !HasOutstandingRequests(serviceItems[t][k]) <==>
      forall id :: id in itemMap ==> itemMap[id] != ItemRef(t, serviceItems[t][k].name)
  {
    var r := ItemRef(t, serviceItems[t][k].name);
    if exists id :: id in itemMap && itemMap[id] == r {
      var id :| id in itemMap && itemMap[id] == r;
      assert id in Owned(itemMap, r);
    }
  }

  /** IndexOf looks at names only. */
  lemma {:induction false} IndexOfSameNames(a: seq<Item>, b: seq<Item>, name: string)
    requires |a| == |b|
    requires forall i :: 0 <= i < |a| ==> a[i].name == b[i].name
    ensures IndexOf(a, name) == IndexOf(b, name)
    decreases |a|
  {
    if a != [] {
      IndexOfSameNames(a[1..], b[1..], name);
    }
  }

  /**
    Replacing item k of type t by one with the same name and type, while the
    item map changes only in the ids that item owns, keeps the registry and
    the link.
  */
  lemma ReplaceItemKeepsLink(serviceItems: map<string, seq<Item>>, serviceTypes: map<string, RecordType>,
                             itemMap: map<int, ItemRef>, itemMap': map<int, ItemRef>,
                             t: string, k: int, it: Item)
    requires RegistryOk(serviceItems, serviceTypes) && Linked(serviceItems, itemMap)
    requires t in serviceItems && 0 <= k < |serviceItems[t]|
    requires it.name == serviceItems[t][k].name && it.serviceType == t
    requires forall id :: id in itemMap' && itemMap'[id] != ItemRef(t, it.name) ==>
      id in itemMap && itemMap[id] == itemMap'[id]
    requires forall id :: id in itemMap && itemMap[id] != ItemRef(t, it.name) ==>
      id in itemMap' && itemMap'[id] == itemMap[id]
    requires it.outstanding == Owned(itemMap', ItemRef(t, it.name))
    ensures var reg := serviceItems[t := serviceItems[t][k := it]];
      RegistryOk(reg, serviceTypes) && Linked(reg, itemMap')
  {
    var reg := serviceItems[t := serviceItems[t][k := it]];
    ReplaceItemKeepsRegistry(serviceItems, serviceTypes, t, k, it);
    ReplaceItemKeepsLive(serviceItems, itemMap, itemMap', t, k, it);
    ReplaceItemKeepsOutstanding(serviceItems, serviceTypes, itemMap, itemMap', t, k, it);
  }

  lemma ReplaceItemKeepsRegistry(serviceItems: map<string, seq<Item>>, serviceTypes: map<string, RecordType>,
                                 t: string, k: int, it: Item)
    requires RegistryOk(serviceItems, serviceTypes)
    requires t in serviceItems && 0 <= k < |serviceItems[t]|
    requires it.name == serviceItems[t][k].name && it.serviceType == t
    ensures RegistryOk(serviceItems[t := serviceItems[t][k := it]], serviceTypes)
  {
  }

  lemma ReplaceItemKeepsLive(serviceItems: map<string, seq<Item>>,
                             itemMap: map<int, ItemRef>, itemMap': map<int, ItemRef>,
                             t: string, k: int, it: Item)
    requires Linked(serviceItems, itemMap)
    requires t in serviceItems && 0 <= k < |serviceItems[t]|
    requires it.name == serviceItems[t][k].name
    requires forall id :: id in itemMap' && itemMap'[id] != ItemRef(t, it.name) ==>
      id in itemMap && itemMap[id] == itemMap'[id]
    ensures forall id :: id in itemMap' ==> LiveIn(serviceItems[t := serviceItems[t][k := it]], itemMap'[id])
  {
    var reg := serviceItems[t := serviceItems[t][k := it]];
    forall id | id in itemMap' ensures LiveIn(reg, itemMap'[id]) {
      var q := itemMap'[id];
      if q != ItemRef(t, it.name) {
        assert LiveIn(serviceItems, q);
        IndexOfSameNames(reg[q.serviceType], serviceItems[q.serviceType], q.name);
      } else {
        assert reg[t][k].name == q.name;
      }
    }
  }

  lemma ReplaceItemKeepsOutstanding(serviceItems: map<string, seq<Item>>, serviceTypes: map<string, RecordType>,
                                    itemMap: map<int, ItemRef>, itemMap': map<int, ItemRef>,
                                    t: string, k: int, it: Item)
    requires RegistryOk(serviceItems, serviceTypes) && Linked(serviceItems, itemMap)
    requires t in serviceItems && 0 <= k < |serviceItems[t]|
    requires it.name == serviceItems[t][k].name
    requires forall id :: id in itemMap' && itemMap'[id] != ItemRef(t, it.name) ==>
      id in itemMap && itemMap[id] == itemMap'[id]
    requires forall id :: id in itemMap && itemMap[id] != ItemRef(t, it.name) ==>
      id in itemMap' && itemMap'[id] == itemMap[id]
    requires it.outstanding == Owned(itemMap', ItemRef(t, it.name))
    ensures var reg := serviceItems[t := serviceItems[t][k := it]];
      forall u, j :: u in reg && 0 <= j < |reg[u]| ==>
        reg[u][j].outstanding == Owned(itemMap', ItemRef(u, reg[u][j].name))
  {
    var reg: map<string, seq<Item>> := serviceItems[t := serviceItems[t][k := it]];
    var r := ItemRef(t, it.name);
    forall u: string, j: int | u in reg && 0 <= j < |reg[u]|
      ensures reg[u][j].outstanding == Owned(itemMap', ItemRef(u, reg[u][j].name))
    {
      var q := ItemRef(u, reg[u][j].name);
      if u != t || j != k {
        assert reg[u][j] == serviceItems[u][j];
        assert q != r by {
          if u == t {
            assert WellFormedList(serviceItems[t], t);
          }
        }
        forall id ensures id in Owned(itemMap', q) <==> id in Owned(itemMap, q) {
          if id in itemMap' && itemMap'[id] == q {
            assert id in itemMap && itemMap[id] == q;
          }
          if id in itemMap && itemMap[id] == q {
            assert id in itemMap' && itemMap'[id] == q;
          }
        }
      }
    }
  }

  /**
    Removing item k of type t together with every id it owns keeps the
    registry and the link.
  */
  lemma RemoveItemKeepsLink(serviceItems: map<string, seq<Item>>, serviceTypes: map<string, RecordType>,
                            itemMap: map<int, ItemRef>, t: string, k: int)
    requires RegistryOk(serviceItems, serviceTypes) && Linked(serviceItems, itemMap)
    requires t in serviceItems && 0 <= k < |serviceItems[t]|
    ensures var items := serviceItems[t];
      var reg := serviceItems[t := items[..k] + items[k + 1..]];
      var r := ItemRef(t, items[k].name);
      RegistryOk(reg, serviceTypes) && Linked(reg, itemMap - Owned(itemMap, r))
  {
    var items := serviceItems[t];
    var rest := items[..k] + items[k + 1..];
    var reg := serviceItems[t := rest];
    var r := ItemRef(t, items[k].name);
    var im := itemMap - Owned(itemMap, r);
    assert WellFormedList(rest, t) by {
      forall i, j | 0 <= i < j < |rest| ensures rest[i].name != rest[j].name {
        var i' := if i < k then i else i + 1;
        var j' := if j < k then j else j + 1;
        assert rest[i] == items[i'] && rest[j] == items[j'];
      }
    }
    forall id | id in im ensures LiveIn(reg, im[id]) {
      var q := im[id];
      assert LiveIn(serviceItems, q);
      if q.serviceType == t {
        var j := IndexOf(items, q.name);
        assert j != k;
        var j' := if j < k then j else j - 1;
        assert rest[j'].name == q.name;
      }
    }
    forall u: string, j: int | u in reg && 0 <= j < |reg[u]|
      ensures reg[u][j].outstanding == Owned(im, ItemRef(u, reg[u][j].name))
    {
      var q := ItemRef(u, reg[u][j].name);
      if u == t {
        var j' := if j < k then j else j + 1;
        assert reg[u][j] == items[j'];
      }
      assert q != r;
      assert Owned(im, q) == Owned(itemMap, q);
    }
  }

  /** Appending a new item that owns nothing, under a name not yet in its list, keeps the registry and the link. */
  lemma AppendItemKeepsLink(serviceItems: map<string, seq<Item>>, serviceTypes: map<string, RecordType>,
                            itemMap: map<int, ItemRef>, t: string, it: Item)
    requires RegistryOk(serviceItems, serviceTypes) && Linked(serviceItems, itemMap)
    requires t in serviceItems && IndexOf(serviceItems[t], it.name) < 0
    requires it.serviceType == t && it.outstanding == {}
    ensures var reg := serviceItems[t := serviceItems[t] + [it]];
      RegistryOk(reg, serviceTypes) && Linked(reg, itemMap)
  {
    var items := serviceItems[t];
    var reg := serviceItems[t := items + [it]];
    forall id | id in itemMap ensures LiveIn(reg, itemMap[id]) {
      var q := itemMap[id];
      assert LiveIn(serviceItems, q);
      if q.serviceType == t {
        var j := IndexOf(items, q.name);
        assert reg[t][j].name == q.name;
      }
    }
    assert Owned(itemMap, ItemRef(t, it.name)) == {} by {
      forall id | id in itemMap ensures itemMap[id] != ItemRef(t, it.name) {
        assert LiveIn(serviceItems, itemMap[id]);
      }
    }
    forall u: string, j: int | u in reg && 0 <= j < |reg[u]|
      ensures reg[u][j].outstanding == Owned(itemMap, ItemRef(u, reg[u][j].name))
    {
      if u == t && j < |items| {
        assert reg[u][j] == items[j];
      }
    }
  }

  /** Forgetting item-owned ids keeps the ledger consistent. */
  lemma DropItemIdsKeepsLedger(typeMap: map<int, RecordType>, serviceMap: map<int, string>,
                               itemMap: map<int, ItemRef>, nextId: int, ids: set<int>)
    requires LedgerOk(typeMap, serviceMap, itemMap, nextId)
    requires ids <= itemMap.Keys
    ensures LedgerOk(typeMap - ids, serviceMap, itemMap - ids, nextId)
  {
  }

  /** A fresh follow-up id taken from the transport keeps the ledger. */
  lemma IssueFollowUpKeepsLedger(typeMap: map<int, RecordType>, serviceMap: map<int, string>,
                                 itemMap: map<int, ItemRef>, nextId: int, kind: RecordType, r: ItemRef)
    requires LedgerOk(typeMap, serviceMap, itemMap, nextId) && IsFollowUp(kind)
    ensures nextId !in typeMap && nextId !in itemMap && nextId !in serviceMap
    ensures LedgerOk(typeMap[nextId := kind], serviceMap, itemMap[nextId := r], nextId + 1)
  {
  }

  /**
    Dropping the ids of one more item of type `t` from a map that already lost
    those of the items named in `names` is dropping those of `names + {n}`.
  */
  lemma OwnedByStep(itemMap: map<int, ItemRef>, t: string, names: set<string>, n: string)
    ensures var rest := itemMap - OwnedBy(itemMap, t, names);
      && rest - Owned(rest, ItemRef(t, n)) == itemMap - OwnedBy(itemMap, t, names + {n})
      && OwnedBy(itemMap, t, names) + Owned(rest, ItemRef(t, n)) == OwnedBy(itemMap, t, names + {n})
  {
    var rest := itemMap - OwnedBy(itemMap, t, names);
    assert OwnedBy(itemMap, t, names) + Owned(rest, ItemRef(t, n)) == OwnedBy(itemMap, t, names + {n});
  }

  /** With the link in place, the ids that refer to type `t` are exactly those owned by its items. */
  lemma OwnedByWholeList(serviceItems: map<string, seq<Item>>, itemMap: map<int, ItemRef>, t: string)
    requires Linked(serviceItems, itemMap) && t in serviceItems
    ensures OwnedBy(itemMap, t, NameSet(serviceItems[t])) == set id | id in itemMap && itemMap[id].serviceType == t
  {
    forall id | id in itemMap && itemMap[id].serviceType == t
      ensures itemMap[id].name in NameSet(serviceItems[t])
    {
      assert LiveIn(serviceItems, itemMap[id]);
      var k := IndexOf(serviceItems[t], itemMap[id].name);
      assert serviceItems[t][k] in serviceItems[t];
    }
  }

  /** A service type whose list is empty can be dropped from a linked registry. */
  lemma DropEmptyTypeKeepsLink(serviceItems: map<string, seq<Item>>, serviceTypes: map<string, RecordType>,
                               itemMap: map<int, ItemRef>, t: string)
    requires RegistryOk(serviceItems, serviceTypes) && Linked(serviceItems, itemMap)
    requires t in serviceItems && serviceItems[t] == []
    ensures RegistryOk(serviceItems - {t}, serviceTypes - {t}) && Linked(serviceItems - {t}, itemMap)
  {
    var reg := serviceItems - {t};
    forall id | id in itemMap ensures LiveIn(reg, itemMap[id]) {
      assert LiveIn(serviceItems, itemMap[id]);
    }
  }
  /** Removing two key sets one after the other removes their union. */
  lemma MapMinusTwice<K, V>(m: map<K, V>, a: set<K>, b: set<K>)
    ensures (m - a) - b == m - (a + b)
  {
  }

  /**
    Dropping the ids of one more item of type `t`, named `n`, from the maps
    that already lost those of the items named in `names` (and cancelling
    them) is dropping and cancelling those of `names + {n}`.
  */
  lemma DropAccounts(typeMap0: map<int, RecordType>, itemMap0: map<int, ItemRef>, cancelled0: set<int>,
                     t: string, names: set<string>, n: string)
    ensures var before, after := OwnedBy(itemMap0, t, names), OwnedBy(itemMap0, t, names + {n});
      var ids := Owned(itemMap0 - before, ItemRef(t, n));
      && (itemMap0 - before) - ids == itemMap0 - after
      && (typeMap0 - before) - ids == typeMap0 - after
      && (cancelled0 + before) + ids == cancelled0 + after
  {
    OwnedByStep(itemMap0, t, names, n);
    MapMinusTwice(typeMap0, OwnedBy(itemMap0, t, names), Owned(itemMap0 - OwnedBy(itemMap0, t, names), ItemRef(t, n)));
  }

  /** Replacing item k of type t by one with the same name, type and outstanding set keeps everything consistent. */
  lemma ReplaceKeepsConsistent(serviceItems: map<string, seq<Item>>, serviceTypes: map<string, RecordType>,
                               typeMap: map<int, RecordType>, serviceMap: map<int, string>,
                               itemMap: map<int, ItemRef>, nextId: int, t: string, k: int, it: Item)
    requires Consistent(serviceItems, serviceTypes, typeMap, serviceMap, itemMap, nextId)
    requires t in serviceItems && 0 <= k < |serviceItems[t]|
    requires it.name == serviceItems[t][k].name && it.serviceType == t
    requires it.outstanding == serviceItems[t][k].outstanding
    ensures Consistent(serviceItems[t := serviceItems[t][k := it]], serviceTypes, typeMap, serviceMap, itemMap, nextId)
  {
    ReplaceItemKeepsLink(serviceItems, serviceTypes, itemMap, itemMap, t, k, it);
  }

  /** Under the ledger invariant a service type has at most one top-level query. */
  lemma AtMostOneTopQuery(serviceMap: map<int, string>, t: string)
    requires OneQueryPerType(serviceMap)
    ensures |TopQueries(serviceMap, t)| <= 1
    ensures forall id :: id in TopQueries(serviceMap, t) ==> TopQueries(serviceMap, t) == {id}
  {
    var top := TopQueries(serviceMap, t);
    assert (forall x :: x !in top) ==> top == {};
    if top != {} {
      var id :| id in top;
      forall x | x in top ensures x == id {
      }
      assert top == {id};
    }
  }

  /** Starting a top-level query of a type that has none, under the next fresh id, keeps everything consistent. */
  lemma StartKeepsConsistent(serviceItems: map<string, seq<Item>>, serviceTypes: map<string, RecordType>,
                             typeMap: map<int, RecordType>, serviceMap: map<int, string>,
                             itemMap: map<int, ItemRef>, nextId: int, t: string, queryType: RecordType)
    requires Consistent(serviceItems, serviceTypes, typeMap, serviceMap, itemMap, nextId)
    requires TopQueries(serviceMap, t) == {}
    ensures Consistent(serviceItems, serviceTypes, typeMap[nextId := queryType], serviceMap[nextId := t], itemMap, nextId + 1)
  {
    forall id | id in serviceMap ensures serviceMap[id] != t {
      assert id !in TopQueries(serviceMap, t);
    }
  }

  /** Forgetting the top-level queries of a type keeps everything consistent. */
  lemma StopKeepsConsistent(serviceItems: map<string, seq<Item>>, serviceTypes: map<string, RecordType>,
                            typeMap: map<int, RecordType>, serviceMap: map<int, string>,
                            itemMap: map<int, ItemRef>, nextId: int, t: string)
    requires Consistent(serviceItems, serviceTypes, typeMap, serviceMap, itemMap, nextId)
    ensures var top := TopQueries(serviceMap, t);
      Consistent(serviceItems, serviceTypes, typeMap - top, serviceMap - top, itemMap, nextId)
  {
  }

  /** Starting or forgetting the top-level queries of type `t` leaves those of every other type alone. */
  lemma TopQueriesOfOthers(serviceMap: map<int, string>, t: string, u: string, id: int)
    requires u != t
    ensures TopQueries(serviceMap - TopQueries(serviceMap, t), u) == TopQueries(serviceMap, u)
    ensures TopQueries(serviceMap[id := t], u) == TopQueries(serviceMap, u) - {id}
  {
  }
}
