/** The near cache's store as objects: a map from keys to list elements, and the list of the elements. */
module LruStores {
  import opened Wrappers
  import opened Words
  import opened LruModel

  class Element {
    const key: Key
    var value: Bytes

    constructor (k: Key, v: Bytes)
      ensures key == k && value == v
    {
      key, value := k, v;
    }
  }

  lemma {:induction false} RemoveAt(s: Recency, i: nat)
    requires KeysDiffer(s) && i < |s|
    ensures Without(s, s[i].key) == s[..i] + s[i + 1..]
    ensures Lookup(s, s[i].key) == Some(s[i].value)
  {
    if i == 0 {
      WithoutFacts(s[1..], s[0].key);
      assert forall x :: x in s[1..] ==> x.key != s[0].key;
    } else {
      RemoveAt(s[1..], i - 1);
      assert s[..i] + s[i + 1..] == [s[0]] + (s[1..][..i - 1] + s[1..][i..]);
    }
  }

  ghost predicate Distinct(es: seq<Element>) {
    forall i, j :: 0 <= i < j < |es| ==> es[i] != es[j]
  }

  function Cut(es: seq<Element>, i: nat): seq<Element>
    requires i < |es|
  {
    es[..i] + es[i + 1..]
  }

  lemma CutFacts(es: seq<Element>, i: nat)
    requires Distinct(es) && i < |es|
    ensures Distinct(Cut(es, i))
    ensures forall e :: e in Cut(es, i) <==> e in es && e != es[i]
  {
    var c := Cut(es, i);
    assert forall j :: 0 <= j < |es| && j != i ==> es[j] == c[if j < i then j else j - 1];
    assert forall j :: 0 <= j < |c| ==> c[j] == es[if j < i then j else j + 1];
  }

  ghost function ItemsOf(es: seq<Element>): (s: Recency)
    reads es
    ensures |s| == |es|
  {
    seq(|es|, i requires 0 <= i < |es| reads es => Item(es[i].key, es[i].value))
  }

  lemma CutItems(es: seq<Element>, i: nat)
    requires i < |es| && KeysDiffer(ItemsOf(es))
    ensures ItemsOf(Cut(es, i)) == Without(ItemsOf(es), es[i].key)
    ensures Lookup(ItemsOf(es), es[i].key) == Some(es[i].value)
  {
    var s := ItemsOf(es);
    RemoveAt(s, i);
    assert ItemsOf(Cut(es, i)) == s[..i] + s[i + 1..];
  }

  lemma FrontFacts(el: Element, es: seq<Element>)
    requires Distinct(es) && el !in es
    ensures Distinct([el] + es)
    ensures forall e :: e in [el] + es <==> e == el || e in es
  {
  }

  class LruStore {
    const max: int
    var items: map<Key, Element>
    /** The list, front (most recently used) first. */
    var eviction: seq<Element>
    /** The keys onRemove has been called with. */
    var reported: seq<Key>

    ghost predicate Valid()
      reads this
    {
      && Distinct(eviction)
      && (forall e :: e in eviction ==> e.key in items && items[e.key] == e)
      && (forall k :: k in items ==> items[k].key == k && items[k] in eviction)
    }

    ghost function Contents(): (s: Recency)
      reads this, eviction
      ensures |s| == |eviction|
    {
      ItemsOf(eviction)
    }

    constructor (maxEntries: int)
      ensures Valid() && Contents() == [] && reported == [] && max == maxEntries
    {
      max, items, eviction, reported := maxEntries, map[], [], [];
    }

    lemma Facts(k: Key)
      requires Valid()
      ensures KeysDiffer(Contents())
      ensures k in items <==> Lookup(Contents(), k).Some?
    {
      assert forall i :: 0 <= i < |eviction| ==> eviction[i] in eviction;
      WithoutFacts(Contents(), k);
      if k in items {
        var i :| 0 <= i < |eviction| && eviction[i] == items[k];
        assert Contents()[i].key == k;
      }
    }

    /** list.List.Remove for an element of the list. */
    method Unlink(el: Element)
      requires Valid() && el in eviction
      modifies this`eviction
      ensures Distinct(eviction) && el !in eviction
      ensures forall e :: e in eviction <==> e in old(eviction) && e != el
      ensures Lookup(old(Contents()), el.key) == Some(el.value)
      ensures Contents() == Without(old(Contents()), el.key)
    {
      var i :| 0 <= i < |eviction| && eviction[i] == el;
      Facts(el.key);
      CutItems(eviction, i);
      CutFacts(eviction, i);
      eviction := Cut(eviction, i);
    }

    /** list.List.PushFront. */
    method PushFront(el: Element)
      requires Distinct(eviction) && el !in eviction
      modifies this`eviction
      ensures Distinct(eviction)
      ensures forall e :: e in eviction <==> e == el || e in old(eviction)
      ensures Contents() == [Item(el.key, el.value)] + old(Contents())
    {
      FrontFacts(el, eviction);
      eviction := [el] + eviction;
    }

    method Get(key: Key) returns (r: Option<Bytes>)
      requires Valid()
      modifies this
      ensures Valid()
      ensures r == Lookup(old(Contents()), key)
      ensures Contents() == Apply(max, old(Contents()), LruOp.Get(key)) && reported == old(reported)
    {
      Facts(key);
      if key !in items {
        return None;
      }
      var el := items[key];
      Unlink(el);
      PushFront(el);
      r := Some(el.value);
    }

    method EvictOldest()
      requires Valid()
      modifies this
      ensures Valid()
      ensures Contents() == if old(Contents()) == [] then [] else old(Contents())[..|old(Contents())| - 1]
      ensures reported == old(reported) +
                          if old(Contents()) == [] then [] else [old(Contents())[|old(Contents())| - 1].key]
      ensures items.Keys <= old(items).Keys && forall e :: e in eviction ==> e in old(eviction)
    {
      if |eviction| == 0 {
        return;
      }
      var el := eviction[|eviction| - 1];
      ghost var before := Contents();
      CutFacts(eviction, |eviction| - 1);
      eviction := eviction[..|eviction| - 1];
      assert eviction == Cut(old(eviction), |old(eviction)| - 1);
      assert Contents() == before[..|before| - 1];
      items := items - {el.key};
      reported := reported + [el.key];
    }

    /** Put for a key the store holds: the element is changed in place and moved to the front. */
    method Refresh(key: Key, value: Bytes)
      requires Valid() && key in items
      modifies this`eviction, eviction
      ensures Valid() && forall e :: e in eviction <==> e in old(eviction)
      ensures Contents() == Apply(max, old(Contents()), LruOp.Put(key, value))
      ensures Reported(max, old(Contents()), LruOp.Put(key, value)) == []
    {
      Facts(key);
      var el := items[key];
      Unlink(el);
      ghost var rest := Contents();
      el.value := value;
      assert Contents() == rest;
      PushFront(el);
    }

    method Insert(key: Key, value: Bytes)
      requires Valid() && key !in items
      modifies this
      ensures Valid() && forall e :: e in eviction ==> e in old(eviction) || fresh(e)
      ensures Contents() == [Item(key, value)] + old(Contents()) && reported == old(reported)
    {
      var el := new Element(key, value);
      PushFront(el);
      items := items[key := el];
    }

    method Put(key: Key, value: Bytes)
      requires Valid()
      modifies this, eviction
      ensures Valid() && forall e :: e in eviction ==> e in old(eviction) || fresh(e)
      ensures Contents() == Apply(max, old(Contents()), LruOp.Put(key, value))
      ensures reported == old(reported) + Reported(max, old(Contents()), LruOp.Put(key, value))
    {
      if key in items {
        Refresh(key, value);
        return;
      }
      Facts(key);
      if |eviction| >= max {
        EvictOldest();
      }
      Insert(key, value);
    }

    method Remove(key: Key)
      requires Valid()
      modifies this
      ensures Valid()
      ensures Contents() == Apply(max, old(Contents()), LruOp.Remove(key))
      ensures reported == old(reported) + Reported(max, old(Contents()), LruOp.Remove(key))
    {
      Facts(key);
      WithoutFacts(Contents(), key);
      if key !in items {
        return;
      }
      Unlink(items[key]);
      items := items - {key};
      reported := reported + [key];
    }

    method Clear()
      modifies this
      ensures Valid() && Contents() == [] && reported == old(reported)
    {
      items := map[];
      eviction := [];
    }

    method Len() returns (n: nat)
      requires Valid()
      ensures n == |Contents()|
    {
      n := |items|;
      var es := eviction;
      var ks := seq(|es|, i requires 0 <= i < |es| => es[i].key);
      assert forall i :: 0 <= i < |es| ==> es[i] in eviction;
      assert items.Keys == set k | k in ks by {
        forall k | k in items
          ensures k in ks
        {
          var i :| 0 <= i < |es| && es[i] == items[k];
          assert ks[i] == k;
        }
      }
      KeysCounted(ks);
    }
  }

  lemma {:induction false} KeysCounted(ks: seq<Key>)
    requires forall i, j :: 0 <= i < j < |ks| ==> ks[i] != ks[j]
    ensures |set k | k in ks| == |ks|
  {
    if ks != [] {
      KeysCounted(ks[1..]);
      assert (set k | k in ks) == {ks[0]} + set k | k in ks[1..];
    }
  }
}
