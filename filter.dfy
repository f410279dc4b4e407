/**
  The item filter of ServiceDiscoveryFilter: a name wildcard and a list of
  TXT-record wildcards, AND-connected. The Unix wildcard match itself is a
  parameter (`Matcher`).
*/
module DiscoveryFilter {
  import opened Sequences
  import opened ServiceItems

  /** `matches(pattern, subject)`: the case-sensitive Unix wildcard `pattern` matches somewhere in `subject`. */
  type Matcher = (string, string) -> bool

  /** The criteria a filter holds: name pattern ("" accepts every name) and TXT patterns. */
  datatype Filter = Filter(name: string, txtRecords: seq<string>)

  /** The texts the pattern matches, in their original order (a string-list filter by wildcard). */
  function Keep(texts: seq<string>, pattern: string, matches: Matcher): (r: seq<string>)
    ensures forall t :: t in r <==> t in texts && matches(pattern, t)
    ensures forall t {:trigger multiset(r)[t]} :: multiset(r)[t] == if matches(pattern, t) then multiset(texts)[t] else 0
    ensures IsSubsequence(r, texts)
  {
    if texts == [] then []
    else
      assert texts == [texts[0]] + texts[1..];
      if matches(pattern, texts[0]) then [texts[0]] + Keep(texts[1..], pattern, matches)
      else Keep(texts[1..], pattern, matches)
  }

  /** The TXT list narrowed by each pattern in turn. */
  function Narrow(texts: seq<string>, patterns: seq<string>, matches: Matcher): seq<string>
    decreases |patterns|
  {
    if patterns == [] then texts
    else Narrow(Keep(texts, patterns[0], matches), patterns[1..], matches)
  }

  predicate NameAccepted(f: Filter, it: Item, matches: Matcher)
  {
    f.name == "" || matches(f.name, it.name)
  }

  /** What apply answers for an item. */
  predicate Accepts(f: Filter, it: Item, matches: Matcher)
  {
    NameAccepted(f, it, matches)
    && (f.txtRecords == [] || Narrow(it.txtRecords, f.txtRecords, matches) != [])
  }

  /** A text survives the narrowing exactly when it is one of the item's and every pattern matches it. */
  lemma {:induction false} NarrowMembers(texts: seq<string>, patterns: seq<string>, matches: Matcher)
    ensures forall t :: t in Narrow(texts, patterns, matches) <==>
      t in texts && forall p :: p in patterns ==> matches(p, t)
    decreases |patterns|
  {
    if patterns != [] {
      var kept := Keep(texts, patterns[0], matches);
      NarrowMembers(kept, patterns[1..], matches);
      forall t
        ensures t in Narrow(texts, patterns, matches) <==> t in texts && forall p :: p in patterns ==> matches(p, t)
      {
        assert forall p :: p in patterns <==> p == patterns[0] || p in patterns[1..];
      }
    }
  }

  /** One more pattern narrows the already narrowed list once more. */
  lemma {:induction false} NarrowSnoc(texts: seq<string>, patterns: seq<string>, q: string, matches: Matcher)
    ensures Narrow(texts, patterns + [q], matches) == Keep(Narrow(texts, patterns, matches), q, matches)
    decreases |patterns|
  {
    if patterns == [] {
      assert [] + [q] == [q];
    } else {
      assert (patterns + [q])[1..] == patterns[1..] + [q];
      NarrowSnoc(Keep(texts, patterns[0], matches), patterns[1..], q, matches);
    }
  }

  /**
    The filter criteria are AND-connected: the name test, and, when TXT patterns
    are given, one of the item's TXT records that every pattern matches.
  */
  lemma AcceptsMeaning(f: Filter, it: Item, matches: Matcher)
    ensures Accepts(f, it, matches) <==>
      && (f.name == "" || matches(f.name, it.name))
      && (f.txtRecords == [] ||
          exists t :: t in it.txtRecords && forall p :: p in f.txtRecords ==> matches(p, t))
  {
    NarrowMembers(it.txtRecords, f.txtRecords, matches);
    var n := Narrow(it.txtRecords, f.txtRecords, matches);
    if n != [] {
      assert n[0] in n;
    }
  }

  /** An empty name pattern accepts any name; a non-empty one that does not match rejects. */
  lemma NameCriterion(f: Filter, it: Item, matches: Matcher)
    ensures f.name == "" ==>
      (Accepts(f, it, matches) <==> f.txtRecords == [] || Narrow(it.txtRecords, f.txtRecords, matches) != [])
    ensures f.name != "" && !matches(f.name, it.name) ==> !Accepts(f, it, matches)
    ensures f.txtRecords == [] ==> (Accepts(f, it, matches) <==> NameAccepted(f, it, matches))
  {
  }

  /** Adding a TXT pattern can only make the filter stricter. */
  lemma MorePatternsStricter(f: Filter, q: string, it: Item, matches: Matcher)
    requires f.txtRecords != []
    requires Accepts(Filter(f.name, f.txtRecords + [q]), it, matches)
    ensures Accepts(f, it, matches)
  {
    NarrowSnoc(it.txtRecords, f.txtRecords, q, matches);
  }

  /** The loop of apply / filterServiceDiscoveryItem: name test, then successive narrowing. */
  method ApplyCriteria(f: Filter, it: Item, matches: Matcher) returns (ok: bool)
    ensures ok == Accepts(f, it, matches)
  {
    if !(f.name == "" || matches(f.name, it.name)) {
      return false;
    }
    if f.txtRecords != [] {
      var texts := it.txtRecords;
      var i := 0;
      while i < |f.txtRecords|
        invariant 0 <= i <= |f.txtRecords|
        invariant texts == Narrow(it.txtRecords, f.txtRecords[..i], matches)
      {
        NarrowSnoc(it.txtRecords, f.txtRecords[..i], f.txtRecords[i], matches);
        assert f.txtRecords[..i + 1] == f.txtRecords[..i] + [f.txtRecords[i]];
        texts := Keep(texts, f.txtRecords[i], matches);
        i := i + 1;
      }
      assert f.txtRecords[..i] == f.txtRecords;
      if texts == [] {
        return false;
      }
    }
    return true;
  }

  /** The items passing both filters, in their original order. */
  function Selected(items: seq<Item>, primary: Filter, secondary: Filter, matches: Matcher): seq<Item>
  {
    if items == [] then []
    else if Accepts(primary, items[0], matches) && Accepts(secondary, items[0], matches)
    then [items[0]] + Selected(items[1..], primary, secondary, matches)
    else Selected(items[1..], primary, secondary, matches)
  }

  /** The selection is exactly the items passing both filters, as a subsequence of the input. */
  lemma {:induction false} SelectedProperties(items: seq<Item>, primary: Filter, secondary: Filter, matches: Matcher)
    ensures forall it :: it in Selected(items, primary, secondary, matches) <==>
      it in items && Accepts(primary, it, matches) && Accepts(secondary, it, matches)
    ensures IsSubsequence(Selected(items, primary, secondary, matches), items)
    decreases |items|
  {
    if items != [] {
      SelectedProperties(items[1..], primary, secondary, matches);
    }
  }

  /** The global and the per-query filter can be applied in either order. */
  lemma {:induction false} SelectedCommutes(items: seq<Item>, f: Filter, g: Filter, matches: Matcher)
    ensures Selected(items, f, g, matches) == Selected(items, g, f, matches)
    decreases |items|
  {
    if items != [] {
      SelectedCommutes(items[1..], f, g, matches);
    }
  }

  /** Filtering an already filtered list changes nothing. */
  lemma {:induction false} SelectedIdempotent(items: seq<Item>, f: Filter, g: Filter, matches: Matcher)
    ensures Selected(Selected(items, f, g, matches), f, g, matches) == Selected(items, f, g, matches)
    decreases |items|
  {
    if items != [] {
      SelectedIdempotent(items[1..], f, g, matches);
    }
  }

  /** The loop of filterServiceDiscoveryItems. */
  method SelectItems(items: seq<Item>, primary: Filter, secondary: Filter, matches: Matcher)
    returns (r: seq<Item>)
    ensures r == Selected(items, primary, secondary, matches)
  {
    r := [];
    var i := 0;
    while i < |items|
      invariant 0 <= i <= |items|
      invariant r + Selected(items[i..], primary, secondary, matches) == Selected(items, primary, secondary, matches)
    {
      assert items[i..][1..] == items[i + 1..];
      var first := ApplyCriteria(primary, items[i], matches);
      var second := ApplyCriteria(secondary, items[i], matches);
      if first && second {
        r := r + [items[i]];
      }
      i := i + 1;
    }
  }

  /** A ServiceDiscoveryFilter object: the criteria are set from outside and only read by apply. */
  class ServiceDiscoveryFilter {
    var name: string
    var txtRecords: seq<string>

    constructor ()
      ensures name == "" && txtRecords == []
    {
      name := "";
      txtRecords := [];
    }

    function Criteria(): Filter
      reads this
    {
      Filter(name, txtRecords)
    }

    /** apply is const: it reads the criteria and changes nothing. */
    method Apply(it: Item, matches: Matcher) returns (ok: bool)
      ensures ok == Accepts(Criteria(), it, matches)
    {
      ok := ApplyCriteria(Criteria(), it, matches);
    }

    /** Stores the name pattern; `changed` reports whether the change signal is emitted. */
    method SetName(arg: string) returns (changed: bool)
      modifies this
      ensures name == arg && txtRecords == old(txtRecords)
      ensures changed == (old(name) != arg)
    {
      changed := name != arg;
      if changed {
        name := arg;
      }
    }

    /** Stores the TXT patterns; `changed` reports whether the change signal is emitted. */
    method SetTxtRecords(arg: seq<string>) returns (changed: bool)
      modifies this
      ensures txtRecords == arg && name == old(name)
      ensures changed == (old(txtRecords) != arg)
    {
      changed := txtRecords != arg;
      if changed {
        txtRecords := arg;
      }
    }
  }
}
