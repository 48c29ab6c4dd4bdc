/**
 * The part of the URLSearchParams interface (WHATWG URL Standard, section 6.2)
 * that the pagination hook uses: an ordered list of name-value pairs, `get`
 * and `set`.  Percent-encoding is not modelled: a query is its list of pairs.
 */
module SearchParams {
  import opened Wrappers

  type Entry = (string, string)
  type Query = seq<Entry>

  /** The index of the first pair named `name`, if there is one. */
  function FirstIndex(q: Query, name: string): (r: Option<nat>)
    ensures r.Some? ==> r.value < |q| && q[r.value].0 == name
    ensures r.Some? ==> forall j :: 0 <= j < r.value ==> q[j].0 != name
    ensures r.None? ==> forall j :: 0 <= j < |q| ==> q[j].0 != name
  {
    if q == [] then None
    else if q[0].0 == name then Some(0)
    else match FirstIndex(q[1..], name)
      case None => None
      case Some(i) => Some(i + 1)
  }

  /** `get(name)`: the value of the first pair named `name`, or null. */
  function GetEntry(q: Query, name: string): (r: Option<string>)
    ensures r.None? <==> forall j :: 0 <= j < |q| ==> q[j].0 != name
    ensures r.Some? ==>
      exists j :: 0 <= j < |q| && q[j] == (name, r.value) && (forall k :: 0 <= k < j ==> q[k].0 != name)
  {
    match FirstIndex(q, name)
    case None => None
    case Some(i) => Some(q[i].1)
  }

  /** The number of pairs named `name`. */
  function Count(q: Query, name: string): nat {
    if q == [] then 0 else (if q[0].0 == name then 1 else 0) + Count(q[1..], name)
  }

  /** The pairs not named `name`, in their original order. */
  function Without(q: Query, name: string): (r: Query)
    ensures |r| <= |q|
  {
    if q == [] then []
    else if q[0].0 == name then Without(q[1..], name)
    else [q[0]] + Without(q[1..], name)
  }

  /**
   * `set(name, value)`: if some pair is named `name`, the first such pair takes
   * `value` and every later one is removed; otherwise the pair is appended.
   */
  function SetEntry(q: Query, name: string, value: string): Query {
    if q == [] then [(name, value)]
    else if q[0].0 == name then [(name, value)] + Without(q[1..], name)
    else [q[0]] + SetEntry(q[1..], name, value)
  }

  lemma GetEntryCons(e: Entry, q: Query, name: string)
    ensures GetEntry([e] + q, name) == if e.0 == name then Some(e.1) else GetEntry(q, name)
  {
    assert ([e] + q)[1..] == q;
  }

  lemma CountCons(e: Entry, q: Query, name: string)
    ensures Count([e] + q, name) == (if e.0 == name then 1 else 0) + Count(q, name)
  {
    assert ([e] + q)[1..] == q;
  }

  lemma WithoutCons(e: Entry, q: Query, name: string)
    ensures Without([e] + q, name) == if e.0 == name then Without(q, name) else [e] + Without(q, name)
  {
    assert ([e] + q)[1..] == q;
  }

  /**
   * The set algorithm in the words of the URL Standard: at the index of the first
   * pair named `name` the new pair stands, before it nothing changes and after it
   * the other pairs of that name are gone; with no such pair, it is appended.
   */
  lemma {:induction false} SetEntryAt(q: Query, name: string, value: string)
    ensures FirstIndex(q, name).None? ==> SetEntry(q, name, value) == q + [(name, value)]
    ensures FirstIndex(q, name).Some? ==>
      var i := FirstIndex(q, name).value;
      SetEntry(q, name, value) == q[..i] + [(name, value)] + Without(q[i + 1..], name)
  {
    if q == [] {
      assert q + [(name, value)] == [(name, value)];
    } else if q[0].0 == name {
      assert q[..0] == [];
    } else {
      var tail := q[1..];
      SetEntryAt(tail, name, value);
      match FirstIndex(tail, name)
      case None =>
        assert q == [q[0]] + tail;
        assert [q[0]] + (tail + [(name, value)]) == ([q[0]] + tail) + [(name, value)];
      case Some(j) =>
        var a, b := tail[..j], Without(tail[j + 1..], name);
        assert tail[j + 1..] == q[j + 2..];
        assert q[..j + 1] == [q[0]] + a;
        assert [q[0]] + (a + [(name, value)] + b) == ([q[0]] + a) + [(name, value)] + b;
    }
  }

  /** No pair named `name` is left by `Without(q, name)`. */
  lemma {:induction false} CountWithout(q: Query, name: string)
    ensures Count(Without(q, name), name) == 0
  {
    if q != [] {
      CountWithout(q[1..], name);
      if q[0].0 != name {
        assert ([q[0]] + Without(q[1..], name))[1..] == Without(q[1..], name);
      }
    }
  }

  /** Removing pairs of one name leaves the pairs of every other name as they were. */
  lemma {:induction false} WithoutKeepsOthers(q: Query, name: string, other: string)
    requires name != other
    ensures Without(Without(q, name), other) == Without(Without(q, other), name)
    ensures GetEntry(Without(q, name), other) == GetEntry(q, other)
  {
    if q != [] {
      WithoutKeepsOthers(q[1..], name, other);
      var w := Without(q[1..], name);
      var v := Without(q[1..], other);
      if q[0].0 != name {
        assert ([q[0]] + w)[1..] == w;
      }
      if q[0].0 != other {
        assert ([q[0]] + v)[1..] == v;
      }
    }
  }

  /** After `set(name, value)` there is exactly one pair named `name`, and `get` returns `value`. */
  lemma {:induction false} SetEntryDefines(q: Query, name: string, value: string)
    ensures Count(SetEntry(q, name, value), name) == 1
    ensures GetEntry(SetEntry(q, name, value), name) == Some(value)
  {
    if q == [] {
      CountCons((name, value), [], name);
      GetEntryCons((name, value), [], name);
    } else if q[0].0 == name {
      CountCons((name, value), Without(q[1..], name), name);
      GetEntryCons((name, value), Without(q[1..], name), name);
      CountWithout(q[1..], name);
    } else {
      SetEntryDefines(q[1..], name, value);
      CountCons(q[0], SetEntry(q[1..], name, value), name);
      GetEntryCons(q[0], SetEntry(q[1..], name, value), name);
    }
  }

  /** `set(name, …)` keeps every pair of another name, in order. */
  lemma {:induction false} SetEntryKeepsOthers(q: Query, name: string, value: string)
    ensures Without(SetEntry(q, name, value), name) == Without(q, name)
  {
    if q == [] {
      WithoutCons((name, value), [], name);
    } else if q[0].0 == name {
      WithoutCons((name, value), Without(q[1..], name), name);
      WithoutWithout(q[1..], name);
    } else {
      SetEntryKeepsOthers(q[1..], name, value);
      WithoutCons(q[0], SetEntry(q[1..], name, value), name);
    }
  }

  lemma {:induction false} WithoutWithout(q: Query, name: string)
    ensures Without(Without(q, name), name) == Without(q, name)
  {
    if q != [] {
      WithoutWithout(q[1..], name);
      if q[0].0 != name {
        assert ([q[0]] + Without(q[1..], name))[1..] == Without(q[1..], name);
      }
    }
  }

  lemma {:induction false} CountWithoutOther(q: Query, name: string, other: string)
    requires name != other
    ensures Count(Without(q, name), other) == Count(q, other)
  {
    if q != [] {
      CountWithoutOther(q[1..], name, other);
      if q[0].0 != name {
        assert ([q[0]] + Without(q[1..], name))[1..] == Without(q[1..], name);
      }
    }
  }

  /** `set(name, …)` does not change how many pairs another name has. */
  lemma SetEntryCountOther(q: Query, name: string, value: string, other: string)
    requires name != other
    ensures Count(SetEntry(q, name, value), other) == Count(q, other)
  {
    SetEntryKeepsOthers(q, name, value);
    CountWithoutOther(SetEntry(q, name, value), name, other);
    CountWithoutOther(q, name, other);
  }

  /** `set(name, …)` does not change what `get` returns for another name. */
  lemma SetEntryGetOther(q: Query, name: string, value: string, other: string)
    requires name != other
    ensures GetEntry(SetEntry(q, name, value), other) == GetEntry(q, other)
  {
    SetEntryKeepsOthers(q, name, value);
    WithoutKeepsOthers(SetEntry(q, name, value), name, other);
    WithoutKeepsOthers(q, name, other);
  }

  /** The pair list a URLSearchParams object holds. */
  class UrlSearchParams {
    var list: Query

    /** `new URLSearchParams(init)`, with `init` already a list of pairs. */
    constructor (init: Query)
      ensures list == init
    {
      list := init;
    }

    /** `set(name, value)` on the held list. */
    method Set(name: string, value: string)
      modifies this
      ensures list == SetEntry(old(list), name, value)
    {
      list := SetEntry(list, name, value);
    }
  }
}
