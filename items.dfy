/** Order-preserving selection on sequences. */
module Sequences {

  /** `a` is `b` with some elements left out and the rest in their original order. */
  predicate IsSubsequence<T(==)>(a: seq<T>, b: seq<T>)
    decreases |b|
  {
    if b == [] then a == []
    else (a != [] && a[0] == b[0] && IsSubsequence(a[1..], b[1..])) || IsSubsequence(a, b[1..])
  }
}

/**
  Discovered service instances (ServiceDiscoveryItem) and the per-service-type
  item lists kept by the registry: lookup by name, upsert, removal and the
  unicast staleness purge, each as a function on one list.
*/
module ServiceItems {
  import opened Sequences

  datatype Option<T> = None | Some(value: T)

  /**
    The DNS record types of the resolver transport; `Unset` is the
    default-constructed (numeric 0) value a lookup of a missing key yields.
  */
  datatype RecordType = Unset | A | Aaaa | Cname | Hinfo | Mx | Ns | Ptr | Srv | Txt | Any

  /** Record types of the follow-up queries issued on behalf of one item. */
  predicate IsFollowUp(t: RecordType)
  {
    t == Txt || t == Srv || t == A
  }

  /** One discovered service instance with its accumulated resolution state. */
  datatype Item = Item(
    name: string,
    serviceType: string,
    hostName: string,
    hostAddress: string,
    port: int,
    txtRecords: seq<string>,
    outstanding: set<int>,  // ids of follow-up queries still open for this item
    updated: bool,          // fresh data arrived since the last purge cycle
    errorCount: int)        // consecutive purge cycles without fresh data

  /** The identity of a live item: its service type and its name. */
  datatype ItemRef = ItemRef(serviceType: string, name: string)

  /** A freshly created item: nothing resolved, nothing outstanding. */
  function NewItem(name: string, serviceType: string): Item
  {
    Item(name, serviceType, "", "", 0, [], {}, false, 0)
  }

  /** An item is fully resolved exactly when no follow-up query is open for it. */
  predicate HasOutstandingRequests(it: Item)
  {
    it.outstanding != {}
  }

  function Names(items: seq<Item>): (r: seq<string>)
    ensures |r| == |items|
    ensures forall i :: 0 <= i < |items| ==> r[i] == items[i].name
  {
    if items == [] then [] else [items[0].name] + Names(items[1..])
  }

  /** Item names are unique within one list and every item carries the list's type. */
  predicate WellFormedList(items: seq<Item>, serviceType: string)
  {
    && (forall i, j :: 0 <= i < j < |items| ==> items[i].name != items[j].name)
    && (forall i :: 0 <= i < |items| ==> items[i].serviceType == serviceType)
  }

  /** The item once the follow-up query `id` has answered: it no longer waits for it. */
  function Answered(it: Item, id: int): (r: Item)
    ensures r.outstanding == it.outstanding - {id}
    ensures r.(outstanding := it.outstanding) == it
  {
    it.(outstanding := it.outstanding - {id})
  }

  /** The item once the follow-up queries `ids` have been started for it: it waits for them too. */
  function Awaiting(it: Item, ids: set<int>): (r: Item)
    ensures r.outstanding == it.outstanding + ids
    ensures r.(outstanding := it.outstanding) == it
  {
    it.(outstanding := it.outstanding + ids)
  }

  /**
    The resolved check run after every answer: an item that waits for no
    follow-up query is marked updated and its error count is reset; an item
    that still waits is left as it is.
  */
  function MarkedResolved(it: Item): (r: Item)
    ensures !HasOutstandingRequests(it) ==> r.updated && r.errorCount == 0
    ensures HasOutstandingRequests(it) ==> r == it
    ensures r.(updated := it.updated, errorCount := it.errorCount) == it
  {
    if HasOutstandingRequests(it) then it else it.(updated := true, errorCount := 0)
  }

  /** Position of the first item called `name`, or -1 when there is none. */
  function IndexOf(items: seq<Item>, name: string): (k: int)
    ensures -1 <= k < |items|
    ensures k >= 0 ==> items[k].name == name
    ensures k >= 0 ==> forall i :: 0 <= i < k ==> items[i].name != name
    ensures k < 0 ==> forall i :: 0 <= i < |items| ==> items[i].name != name
  {
    if items == [] then -1
    else if items[0].name == name then 0
    else
      var k := IndexOf(items[1..], name);
      if k < 0 then -1 else k + 1
  }

  /** The search loop shared by addItem, getItem and removeItem. */
  method FindItem(items: seq<Item>, name: string) returns (k: int)
    ensures k == IndexOf(items, name)
  {
    k := 0;
    while k < |items| && items[k].name != name
      invariant 0 <= k <= |items|
      invariant forall i :: 0 <= i < k ==> items[i].name != name
    {
      k := k + 1;
    }
    if k == |items| {
      k := -1;
    }
  }

  /** Replacing an item by one of the same name leaves every name where it was found. */
  lemma IndexOfReplaced(items: seq<Item>, k: int, it: Item, name: string)
    requires 0 <= k < |items| && items[k].name == it.name
    ensures IndexOf(items[k := it], name) == IndexOf(items, name)
  {
    var r := items[k := it];
    assert forall i :: 0 <= i < |items| ==> r[i].name == items[i].name;
    var a, b := IndexOf(r, name), IndexOf(items, name);
    if a >= 0 && b >= 0 {
      assert !(a < b) && !(b < a);
    }
  }

  /** The list after addItem: unchanged when the name is present, else one new item appended. */
  function Upserted(items: seq<Item>, name: string, serviceType: string): seq<Item>
  {
    if IndexOf(items, name) >= 0 then items else items + [NewItem(name, serviceType)]
  }

  /** Upsert keeps the list well formed, leaves exactly one item with that name, and is idempotent. */
  lemma UpsertedProperties(items: seq<Item>, name: string, serviceType: string)
    requires WellFormedList(items, serviceType)
    ensures var r := Upserted(items, name, serviceType);
      && WellFormedList(r, serviceType)
      && |set i | 0 <= i < |r| && r[i].name == name| == 1
      && items <= r
      && Upserted(r, name, serviceType) == r
  {
    var r := Upserted(items, name, serviceType);
    if IndexOf(items, name) < 0 {
      assert r[|items|].name == name;
    }
    var k := IndexOf(r, name);
    assert k >= 0;
    assert (set i | 0 <= i < |r| && r[i].name == name) == {k} by {
      forall i | 0 <= i < |r| && r[i].name == name ensures i == k {
      }
    }
  }

  /** The list after removeItem: the first item called `name` taken out, if any. */
  function Removed(items: seq<Item>, name: string): seq<Item>
  {
    var k := IndexOf(items, name);
    if k < 0 then items else items[..k] + items[k + 1..]
  }

  /** Removal keeps the others in order and leaves no item with that name. */
  lemma RemovedProperties(items: seq<Item>, name: string, serviceType: string)
    requires WellFormedList(items, serviceType)
    ensures var r := Removed(items, name);
      && WellFormedList(r, serviceType)
      && (forall i :: 0 <= i < |r| ==> r[i].name != name)
      && (forall it :: it in items && it.name != name ==> it in r)
      && IsSubsequence(r, items)
  {
    var k := IndexOf(items, name);
    if k >= 0 {
      DropOneIsSubsequence(items, k);
      DropOneElements(items, k);
      var r := items[..k] + items[k + 1..];
      forall i, j | 0 <= i < j < |r| ensures r[i].name != r[j].name {
        assert r[i] == items[if i < k then i else i + 1];
        assert r[j] == items[if j < k then j else j + 1];
      }
      forall i | 0 <= i < |r| ensures r[i].name != name {
        assert r[i] == items[if i < k then i else i + 1];
      }
      forall it | it in items && it.name != name ensures it in r {
        var j :| 0 <= j < |items| && items[j] == it;
        assert j != k;
      }
    } else {
      SubsequenceReflexive(items);
    }
  }

  /** Dropping position k shifts every later element down by one, and keeps every other element. */
  lemma DropOneElements<T>(s: seq<T>, k: nat)
    requires k < |s|
    ensures var r := s[..k] + s[k + 1..];
      && |r| == |s| - 1
      && (forall i :: 0 <= i < |r| ==> r[i] == s[if i < k then i else i + 1])
      && (forall j :: 0 <= j < |s| && j != k ==> s[j] in r)
  {
    var r := s[..k] + s[k + 1..];
    forall j | 0 <= j < |s| && j != k ensures s[j] in r {
      assert r[if j < k then j else j - 1] == s[j];
    }
  }

  lemma {:induction false} SubsequenceReflexive<T>(s: seq<T>)
    ensures IsSubsequence(s, s)
    decreases |s|
  {
    if s != [] {
      SubsequenceReflexive(s[1..]);
    }
  }

  lemma {:induction false} DropOneIsSubsequence<T>(s: seq<T>, k: nat)
    requires k < |s|
    ensures IsSubsequence(s[..k] + s[k + 1..], s)
    decreases k
  {
    var r := s[..k] + s[k + 1..];
    if k == 0 {
      assert r == s[1..];
      SubsequenceReflexive(s[1..]);
    } else {
      DropOneIsSubsequence(s[1..], k - 1);
      assert r[0] == s[0];
      assert r[1..] == s[1..][..k - 1] + s[1..][k..];
    }
  }

  /** A purge cycle removes an item that was not refreshed and has now missed more than `threshold` cycles. */
  predicate Evicted(it: Item, threshold: int)
  {
    !it.updated && it.errorCount + 1 > threshold
  }

  /** What one purge cycle does to an item that survives it. */
  function Aged(it: Item): Item
  {
    if it.updated then it.(updated := false) else it.(errorCount := it.errorCount + 1)
  }

  /** The list after purgeItems with the given error threshold. */
  function Purged(items: seq<Item>, threshold: int): seq<Item>
  {
    if items == [] then []
    else (if Evicted(items[0], threshold) then [] else [Aged(items[0])]) + Purged(items[1..], threshold)
  }

  /** Purge adds nothing and the survivors keep their relative order. */
  lemma {:induction false} PurgedKeepsOrder(items: seq<Item>, threshold: int)
    ensures |Purged(items, threshold)| <= |items|
    ensures IsSubsequence(Names(Purged(items, threshold)), Names(items))
    decreases |items|
  {
    if items != [] {
      var rest := Purged(items[1..], threshold);
      PurgedKeepsOrder(items[1..], threshold);
      var r := Purged(items, threshold);
      assert Names(items)[1..] == Names(items[1..]);
      if !Evicted(items[0], threshold) {
        assert r == [Aged(items[0])] + rest;
        assert Names(r)[1..] == Names(rest);
      } else {
        assert r == rest;
      }
    }
  }

  /**
    Each survivor of a purge is the aged copy of a non-evicted item, and every
    non-evicted item survives.
  */
  lemma {:induction false} PurgedMembers(items: seq<Item>, threshold: int)
    ensures forall it :: it in items && !Evicted(it, threshold) ==> Aged(it) in Purged(items, threshold)
    ensures forall x :: x in Purged(items, threshold) ==>
      exists it :: it in items && !Evicted(it, threshold) && x == Aged(it)
    decreases |items|
  {
    if items != [] {
      var rest := Purged(items[1..], threshold);
      PurgedMembers(items[1..], threshold);
      var r := Purged(items, threshold);
      assert r == (if Evicted(items[0], threshold) then [] else [Aged(items[0])]) + rest;
      forall x | x in r ensures exists it :: it in items && !Evicted(it, threshold) && x == Aged(it) {
        if x !in rest {
          assert x == Aged(items[0]);
        } else {
          var it :| it in items[1..] && !Evicted(it, threshold) && x == Aged(it);
          assert it in items;
        }
      }
    }
  }

  /** Purged keeps each list well formed. */
  lemma {:induction false} PurgedWellFormed(items: seq<Item>, threshold: int, serviceType: string)
    requires WellFormedList(items, serviceType)
    ensures WellFormedList(Purged(items, threshold), serviceType)
    decreases |items|
  {
    if items != [] {
      var rest := Purged(items[1..], threshold);
      PurgedWellFormed(items[1..], threshold, serviceType);
      PurgedMembers(items[1..], threshold);
      forall x | x in rest ensures x.name != items[0].name {
        var it :| it in items[1..] && !Evicted(it, threshold) && x == Aged(it);
      }
    }
  }

  /** The names of the items a purge cycle evicts. */
  function EvictedNames(items: seq<Item>, threshold: int): set<string>
  {
    set it | it in items && Evicted(it, threshold) :: it.name
  }

  /** Whether a purge cycle evicts anything, which is when purgeItems republishes. */
  predicate AnyEvicted(items: seq<Item>, threshold: int)
  {
    exists i :: 0 <= i < |items| && Evicted(items[i], threshold)
  }

  /** The purge cycle on a suffix starting with an evicted item: it is dropped and counted. */
  lemma PurgedEvictStep(items: seq<Item>, i: nat, threshold: int)
    requires i < |items| && Evicted(items[i], threshold)
    ensures Purged(items[i..], threshold) == Purged(items[i + 1..], threshold)
    ensures EvictedNames(items[i..], threshold) == EvictedNames(items[i + 1..], threshold) + {items[i].name}
    ensures AnyEvicted(items[i..], threshold)
  {
    assert items[i..] == [items[i]] + items[i + 1..];
    assert items[i..][0] == items[i];
  }

  /** The purge cycle on a suffix starting with a kept item: it is aged and nothing is counted. */
  lemma PurgedAgeStep(items: seq<Item>, i: nat, threshold: int)
    requires i < |items| && !Evicted(items[i], threshold)
    ensures Purged(items[i..], threshold) == [Aged(items[i])] + Purged(items[i + 1..], threshold)
    ensures EvictedNames(items[i..], threshold) == EvictedNames(items[i + 1..], threshold)
    ensures AnyEvicted(items[i..], threshold) == AnyEvicted(items[i + 1..], threshold)
  {
    assert items[i..] == [items[i]] + items[i + 1..];
    if AnyEvicted(items[i..], threshold) {
      var j :| 0 <= j < |items[i..]| && Evicted(items[i..][j], threshold);
      assert j > 0 && items[i..][j] == items[i + 1..][j - 1];
    }
    if AnyEvicted(items[i + 1..], threshold) {
      var j :| 0 <= j < |items[i + 1..]| && Evicted(items[i + 1..][j], threshold);
      assert items[i..][j + 1] == items[i + 1..][j];
    }
  }

  /** `rounds` purge cycles in which no fresh data arrives. */
  function PurgedTimes(items: seq<Item>, threshold: int, rounds: nat): seq<Item>
    decreases rounds
  {
    if rounds == 0 then items else PurgedTimes(Purged(items, threshold), threshold, rounds - 1)
  }

  /**
    An item that is not refreshed survives while its error count stays within
    the threshold and is evicted by the first cycle that pushes it past.
  */
  lemma {:induction false} StaleItemLifetime(it: Item, threshold: int, rounds: nat)
    requires !it.updated
    ensures PurgedTimes([it], threshold, rounds) ==
      if rounds == 0 || it.errorCount + rounds <= threshold
      then [it.(errorCount := it.errorCount + rounds)]
      else []
    decreases rounds
  {
    if rounds > 0 {
      if Evicted(it, threshold) {
        assert Purged([it], threshold) == [];
        EmptyStaysEmpty(threshold, rounds - 1);
      } else {
        assert Purged([it], threshold) == [Aged(it)];
        StaleItemLifetime(Aged(it), threshold, rounds - 1);
      }
    }
  }

  lemma {:induction false} EmptyStaysEmpty(threshold: int, rounds: nat)
    ensures PurgedTimes([], threshold, rounds) == []
    decreases rounds
  {
    if rounds > 0 {
      EmptyStaysEmpty(threshold, rounds - 1);
    }
  }

  /**
    A freshly resolved item (updated, error count 0) that is never refreshed
    again survives threshold+1 purge cycles (the first one only clears its
    updated flag) and is evicted by the next one.
  */
  lemma ResolvedItemLifetime(it: Item, threshold: nat)
    requires it.updated && it.errorCount == 0
    ensures PurgedTimes([it], threshold, threshold + 1) ==
      [it.(updated := false, errorCount := threshold)]
    ensures PurgedTimes([it], threshold, threshold + 2) == []
  {
    var cleared := it.(updated := false);
    assert Purged([it], threshold) == [cleared];
    StaleItemLifetime(cleared, threshold, threshold);
    StaleItemLifetime(cleared, threshold, threshold + 1);
  }

  /** An item refreshed since the last cycle survives the next one, losing only its updated flag. */
  lemma RefreshedItemSurvives(it: Item, threshold: int)
    requires it.updated
    ensures Purged([it], threshold) == [it.(updated := false)]
  {
  }
}
