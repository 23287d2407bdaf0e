/** A Map that keeps its entries in the order in which their ids were first set. */
module OrderedMaps {
  import opened Options

  datatype Entry<V> = Entry(id: string, value: V)
  type OrderedMap<V> = seq<Entry<V>>

  predicate HasId<V>(t: OrderedMap<V>, id: string) {
    t != [] && (t[0].id == id || HasId(t[1..], id))
  }

  predicate Unique<V>(t: OrderedMap<V>) {
    t == [] || (!HasId(t[1..], t[0].id) && Unique(t[1..]))
  }

  function Lookup<V>(t: OrderedMap<V>, id: string): Option<V> {
    if t == [] then None else if t[0].id == id then Some(t[0].value) else Lookup(t[1..], id)
  }

  function Remove<V>(t: OrderedMap<V>, id: string): OrderedMap<V> {
    if t == [] then [] else if t[0].id == id then t[1..] else [t[0]] + Remove(t[1..], id)
  }

  /** A new id goes to the end; a known one keeps its place. */
  function Put<V>(t: OrderedMap<V>, id: string, v: V): OrderedMap<V> {
    if t == [] then [Entry(id, v)]
    else if t[0].id == id then [Entry(id, v)] + t[1..]
    else [t[0]] + Put(t[1..], id, v)
  }

  lemma {:induction false} LookupOf<V>(t: OrderedMap<V>, id: string)
    ensures Lookup(t, id).Some? <==> HasId(t, id)
    ensures Lookup(t, id).Some? ==> Entry(id, Lookup(t, id).value) in t
  {
    if t != [] { LookupOf(t[1..], id); }
  }

  lemma {:induction false} MemberHasId<V>(t: OrderedMap<V>, e: Entry<V>)
    requires e in t
    ensures HasId(t, e.id)
    ensures Unique(t) ==> Lookup(t, e.id) == Some(e.value)
  {
    if t[0] != e {
      MemberHasId(t[1..], e);
    }
  }

  lemma {:induction false} RemoveOf<V>(t: OrderedMap<V>, id: string)
    requires Unique(t)
    ensures Unique(Remove(t, id)) && !HasId(Remove(t, id), id)
    ensures forall other :: other != id ==> HasId(Remove(t, id), other) == HasId(t, other)
    ensures forall e :: e in Remove(t, id) <==> e in t && e.id != id
    ensures |Remove(t, id)| == |t| - (if HasId(t, id) then 1 else 0)
  {
    if t != [] {
      if t[0].id == id {
        forall e | e in t[1..] ensures e.id != id { MemberHasId(t[1..], e); }
      } else {
        RemoveOf(t[1..], id);
      }
    }
  }

  lemma {:induction false} PutOf<V>(t: OrderedMap<V>, id: string, v: V)
    requires Unique(t)
    ensures Unique(Put(t, id, v))
    ensures forall other :: HasId(Put(t, id, v), other) <==> other == id || HasId(t, other)
    ensures forall e :: e in Put(t, id, v) <==> e == Entry(id, v) || (e in t && e.id != id)
    ensures |Put(t, id, v)| == |t| + (if HasId(t, id) then 0 else 1)
    ensures !HasId(t, id) ==> Put(t, id, v) == t + [Entry(id, v)]
  {
    if t != [] {
      if t[0].id == id {
        forall e | e in t[1..] ensures e.id != id { MemberHasId(t[1..], e); }
      } else {
        PutOf(t[1..], id, v);
      }
    }
  }

  lemma RemoveKeeps<V>(t: OrderedMap<V>, id: string)
    requires Unique(t)
    ensures Unique(Remove(t, id)) && |Remove(t, id)| <= |t|
  {
    RemoveOf(t, id);
  }

  lemma RenewKeeps<V>(t: OrderedMap<V>, id: string, v: V)
    requires Unique(t) && Lookup(t, id).Some?
    ensures Unique(Put(t, id, v)) && |Put(t, id, v)| == |t|
  {
    LookupOf(t, id);
    PutOf(t, id, v);
  }

  lemma {:induction false} LookupAfterRemove<V>(t: OrderedMap<V>, gone: string, id: string)
    requires id != gone
    ensures Lookup(Remove(t, gone), id) == Lookup(t, id)
  {
    if t != [] && t[0].id != gone { LookupAfterRemove(t[1..], gone, id); }
  }

  lemma {:induction false} LookupAfterPut<V>(t: OrderedMap<V>, key: string, v: V, id: string)
    ensures Lookup(Put(t, key, v), id) == (if id == key then Some(v) else Lookup(t, id))
  {
    if t != [] && t[0].id != key { LookupAfterPut(t[1..], key, v, id); }
  }

  lemma {:induction false} UniqueParts<V>(a: OrderedMap<V>, b: OrderedMap<V>)
    requires Unique(a + b)
    ensures Unique(a) && Unique(b)
    ensures forall id :: HasId(a + b, id) <==> HasId(a, id) || HasId(b, id)
    ensures forall id :: !(HasId(a, id) && HasId(b, id))
  {
    if a == [] {
      assert a + b == b;
    } else {
      assert (a + b)[1..] == a[1..] + b;
      UniqueParts(a[1..], b);
    }
  }

  lemma SplitMember<V>(a: OrderedMap<V>, b: OrderedMap<V>, e: Entry<V>)
    requires Unique(a + b) && e in a + b
    ensures HasId(a, e.id) <==> e in a
    ensures e in b <==> e !in a
  {
    UniqueParts(a, b);
    if e in a { MemberHasId(a, e); }
    if e in b { MemberHasId(b, e); }
  }
}
