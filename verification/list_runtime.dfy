// The growable list: a fixed array that is replaced by one twice as long when it is full.

module ListRuntime {
  import opened Options

  // Where a slice bound falls in a sequence of length n: negative bounds count from the end.
  function Bound(n: nat, k: int): (r: nat)
    ensures r <= n
  {
    var at := if k < 0 then n + k else k;
    if at < 0 then 0 else if at > n then n else at
  }

  // Python's s[start:end].
  function PythonSlice<T>(s: seq<T>, start: int, end: int): seq<T> {
    var lo, hi := Bound(|s|, start), Bound(|s|, end);
    if lo < hi then s[lo..hi] else []
  }

  // Cutting at any bound, negative or beyond the ends, loses and repeats nothing.
  lemma SlicesRejoin<T>(s: seq<T>, k: int)
    ensures PythonSlice(s, 0, k) + PythonSlice(s, k, |s|) == s
  {}

  // Slices between bounds inside the list are as long as their bounds are apart, and join.
  lemma SlicesJoin<T>(s: seq<T>, a: nat, b: nat, c: nat)
    requires a <= b <= c <= |s|
    ensures |PythonSlice(s, a, b)| == b - a && PythonSlice(s, 0, |s|) == s
    ensures PythonSlice(s, a, b) + PythonSlice(s, b, c) == PythonSlice(s, a, c)
  {}

  // So a slice holds the elements from its first bound up to its second, and bounds beyond the
  // ends, or that cross, add nothing.
  lemma SliceElements<T>(s: seq<T>, a: nat, b: nat, start: int, end: int)
    requires a <= b <= |s|
    ensures PythonSlice(s, a, b) == s[a..b]
    ensures end > |s| ==> PythonSlice(s, start, end) == PythonSlice(s, start, |s|)
    ensures start + |s| < 0 ==> PythonSlice(s, start, end) == PythonSlice(s, 0, end)
    ensures start >= |s| || end + |s| <= 0 || 0 <= end <= start ==> PythonSlice(s, start, end) == []
  {}

  // Negative bounds name the same places as their sums with the length, from the start on.
  lemma NegativeBounds<T>(s: seq<T>, start: int, end: int)
    ensures -|s| <= start < 0 ==> PythonSlice(s, start, end) == PythonSlice(s, |s| + start, end)
    ensures -|s| <= end < 0 ==> PythonSlice(s, start, end) == PythonSlice(s, start, |s| + end)
    ensures |PythonSlice(s, start, end)| <= |s| && (forall x :: x in PythonSlice(s, start, end) ==> x in s)
  {}

  // Where a value first stands.
  function IndexOf<T(==)>(s: seq<T>, x: T): (r: Option<nat>)
    ensures r.None? <==> x !in s
    ensures r.Some? ==> r.value < |s| && s[r.value] == x && x !in s[..r.value]
  {
    if s == [] then None
    else if s[0] == x then Some(0)
    else
      match IndexOf(s[1..], x)
      case None => None
      case Some(k) => assert s[..k + 1] == [s[0]] + s[1..][..k]; Some(k + 1)
  }

  class List<T(==)> {
    var data: array<Option<T>>
    var length: nat
    var capacity: nat
    ghost const initial: nat      // the capacity it was made with
    ghost var added: nat          // appends and inserts so far
    ghost var copied: nat         // elements moved by growing, so far

    ghost var contents: seq<T>    // the sequence this list stands for

    ghost predicate Valid()
      reads this, data
    {
      |contents| == length <= capacity == data.Length &&
      (forall i :: 0 <= i < length ==> data[i] == Some(contents[i])) && CostOk()
    }

    // Growing has copied exactly what the capacity gained, and less than two elements for
    // each one added.
    ghost predicate CostOk()
      reads this
    {
      copied + initial == capacity && length <= added && (capacity == initial || capacity < 2 * added) &&
      (initial == 0 ==> capacity == 0)
    }

    constructor (initialCapacity: nat := 16)
      ensures Valid() && contents == [] && capacity == initial == initialCapacity && added == copied == 0 && fresh(data)
    {
      data := new Option<T>[initialCapacity](_ => None);
      length, capacity := 0, initialCapacity;
      initial, added, copied, contents := initialCapacity, 0, 0, [];
    }

    method Get(index: int) returns (r: Option<T>)
      requires Valid()
      ensures r == if 0 <= index < length then Some(contents[index]) else None
    {
      if !(0 <= index < length) { return None; }
      return data[index];
    }

    // Called when full, for an element already counted.
    method Grow()
      requires Valid() && length == capacity && length < added
      modifies this
      ensures Valid() && contents == old(contents) && length == old(length) && added == old(added)
      ensures capacity == 2 * old(capacity) && fresh(data)
    {
      var newData := new Option<T>[capacity * 2](_ => None);
      for i := 0 to length
        modifies newData
        invariant forall j :: 0 <= j < i ==> newData[j] == data[j]
      {
        newData[i] := data[i];
      }
      copied := copied + length;
      data := newData;
      capacity := capacity * 2;
    }

    // The check before every addition. There is then room, unless the list was made with no
    // capacity at all: doubling nothing gains nothing.
    method Reserve() returns (room: bool)
      requires Valid()
      modifies this
      ensures Valid() && contents == old(contents) && added == old(added) + 1 && length < added
      ensures room == (length < data.Length) == (initial > 0)
      ensures data == old(data) || fresh(data)
    {
      added := added + 1;
      if length >= capacity { Grow(); }
      room := length < data.Length;
    }

    method Append(value: T) returns (ok: bool)
      requires Valid()
      modifies this, data
      ensures Valid() && fresh({data} - {old(data)}) && added == old(added) + 1
      ensures ok <==> initial > 0
      ensures contents == if ok then old(contents) + [value] else old(contents)
    {
      ok := Reserve();
      if !ok { return; }
      data[length] := Some(value);
      length := length + 1;
      contents := contents + [value];
    }

    method Pop() returns (r: Option<T>)
      requires Valid()
      modifies `length, `contents
      ensures Valid() && (r.None? <==> old(contents) == [])
      ensures r.None? ==> contents == []
      ensures r.Some? ==> old(contents) == contents + [r.value]
    {
      if length == 0 { return None; }
      length := length - 1;
      contents := contents[..length];
      r := data[length];
    }

    method Insert(index: int, value: T) returns (ok: bool)
      requires Valid()
      modifies this, data
      ensures Valid() && fresh({data} - {old(data)})
      ensures ok <==> 0 <= index <= |old(contents)| && initial > 0
      ensures contents == if ok then old(contents)[..index] + [value] + old(contents)[index..] else old(contents)
    {
      if !(0 <= index <= length) { return false; }
      ok := Reserve();
      if ok { InsertWithin(index, value); }
    }

    // There is room: shift what follows, then write.
    method InsertWithin(index: nat, value: T)
      requires Valid() && index <= length < data.Length && length < added
      modifies `length, `contents, data
      ensures Valid() && contents == old(contents)[..index] + [value] + old(contents)[index..]
    {
      ShiftRight(data, index, length);
      data[index] := Some(value);
      length := length + 1;
      contents := contents[..index] + [value] + contents[index..];
    }

    method Remove(value: T) returns (ok: bool)
      requires Valid()
      modifies this, data
      ensures Valid() && data == old(data) && added == old(added) && copied == old(copied) && capacity == old(capacity)
      ensures ok <==> value in old(contents)
      ensures contents == match IndexOf(old(contents), value)
        case Some(k) => old(contents)[..k] + old(contents)[k + 1..]
        case None => old(contents)
    {
      var index := Find(value);
      if index == length { return false; }
      ShiftLeft(data, index, length);
      length := length - 1;
      contents := contents[..index] + contents[index + 1..];
      ok := true;
    }

    // The first place of a value, or the length.
    method Find(value: T) returns (index: nat)
      requires Valid()
      ensures index <= length && (index == length <==> value !in contents)
      ensures IndexOf(contents, value) == if index < length then Some(index) else None
    {
      index := 0;
      while index < length && data[index] != Some(value)
        invariant index <= length && value !in contents[..index]
      {
        assert contents[..index + 1] == contents[..index] + [contents[index]];
        index := index + 1;
      }
      FirstIndex(contents, value, index);
    }

    // Equal to Python's slice for all bounds.
    method Slice(start: int, end: int) returns (r: List<T>)
      requires Valid()
      ensures fresh(r) && r.Valid() && fresh(r.data) && r.contents == PythonSlice(contents, start, end)
    {
      var lo, hi := start, end;
      if lo < 0 { lo := if length + lo > 0 then length + lo else 0; }
      if hi < 0 { hi := if length + hi > 0 then length + hi else 0; }
      lo := if lo < length then lo else length;
      hi := if hi < length then hi else length;
      r := Copy(lo, if lo < hi then hi else lo);
    }

    // A new list of the elements from lo to hi.
    method Copy(lo: nat, hi: nat) returns (r: List<T>)
      requires Valid() && lo <= hi <= length
      ensures fresh(r) && r.Valid() && fresh(r.data) && r.contents == contents[lo..hi]
    {
      hide CostOk;
      r := new List<T>(if hi - lo > 16 then hi - lo else 16);
      for i := lo to hi
        invariant fresh(r) && r.Valid() && fresh(r.data) && r.initial > 0
        invariant r.contents == contents[lo..i]
      {
        assert contents[lo..i + 1] == contents[lo..i] + [contents[i]];
        var _ := r.Append(data[i].value);
      }
    }

    method Clear()
      requires Valid()
      modifies this
      ensures Valid() && contents == [] && capacity == old(capacity)
    {
      length, contents := 0, [];
      data := new Option<T>[capacity](_ => None);
    }

    // Main result: however the list was used, growing copied capacity minus initial capacity
    // elements, and less than two for each element added.
    lemma GrowthIsAmortized()
      requires Valid()
      ensures copied == capacity - initial
      ensures added > 0 && initial > 0 ==> copied < 2 * added
    {}
  }

  // Elements index to n move one place up.
  method ShiftRight<T>(a: array<Option<T>>, index: nat, n: nat)
    requires index <= n < a.Length
    modifies a
    ensures forall j :: 0 <= j < index ==> a[j] == old(a[j])
    ensures forall j :: index < j <= n ==> a[j] == old(a[j - 1])
  {
    var i := n;
    while i > index
      invariant index <= i <= n
      invariant forall j :: 0 <= j <= i && j < n ==> a[j] == old(a[j])
      invariant forall j :: i < j <= n ==> a[j] == old(a[j - 1])
    {
      a[i] := a[i - 1];
      i := i - 1;
    }
  }

  // Elements after index, up to n, move one place down.
  method ShiftLeft<T>(a: array<Option<T>>, index: nat, n: nat)
    requires index < n <= a.Length
    modifies a
    ensures forall j :: 0 <= j < index ==> a[j] == old(a[j])
    ensures forall j :: index <= j < n - 1 ==> a[j] == old(a[j + 1])
  {
    for i := index to n - 1
      invariant forall j :: 0 <= j < index ==> a[j] == old(a[j])
      invariant forall j :: index <= j < i ==> a[j] == old(a[j + 1])
      invariant forall j :: i <= j < n ==> a[j] == old(a[j])
    {
      a[i] := a[i + 1];
    }
  }

  lemma {:induction false} FirstIndex<T>(s: seq<T>, x: T, k: nat)
    requires k <= |s| && x !in s[..k] && (k < |s| ==> s[k] == x)
    ensures IndexOf(s, x) == if k < |s| then Some(k) else None
  {
    if k > 0 {
      assert s[0] in s[..k];
      assert s[..k] == [s[0]] + s[1..][..k - 1];
      FirstIndex(s[1..], x, k - 1);
    }
  }
}
