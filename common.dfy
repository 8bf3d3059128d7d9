/** Shared vocabulary of the ShareIt model: optional values, the exceptions the
    services throw, Java string helpers and the generic operations that the
    repositories and stream pipelines are built from. */
module Common {

  /** A nullable value or an `Optional`. */
  datatype Option<T> = None | Some(value: T)

  /** The exception a service operation ends with, by kind. */
  datatype Error =
    | NotFound          // NotFoundException
    | Validation        // ValidationException
    | AlreadyExists     // AlreadyExistsException
    | IllegalArgument   // IllegalArgumentException thrown by Enum.valueOf
    | NullPointer       // NullPointerException
    | IndexOutOfBounds  // IndexOutOfBoundsException thrown by List.get

  /** The outcome of a service call: a value, or the exception it throws. */
  datatype Result<T> = Ok(value: T) | Err(error: Error)

  /** Character.isWhitespace, the test String.isBlank applies to every character. */
  predicate IsWhitespace(c: char)
  {
    var n := c as int;
    || c == ' '
    || 9 <= n <= 13            // tab, line feed, vertical tab, form feed, carriage return
    || 28 <= n <= 31           // file, group, record and unit separators
    || n == 0x1680
    || 0x2000 <= n <= 0x2006 || 0x2008 <= n <= 0x200A
    || n == 0x2028 || n == 0x2029 || n == 0x205F || n == 0x3000
  }

  /** String.isBlank: empty, or whitespace only. */
  predicate IsBlank(s: string)
  {
    forall i :: 0 <= i < |s| ==> IsWhitespace(s[i])
  }

  /** Lower-case folding of one character (ASCII letters only). */
  function FoldLower(c: char): (r: char)
    ensures 'A' <= c <= 'Z' ==> 'a' <= r <= 'z'
    ensures !('A' <= c <= 'Z') ==> r == c
  {
    if 'A' <= c <= 'Z' then (c as int + 32) as char else c
  }

  /** Upper-case folding of one character (ASCII letters only). */
  function FoldUpper(c: char): (r: char)
    ensures 'a' <= c <= 'z' ==> 'A' <= r <= 'Z'
    ensures !('a' <= c <= 'z') ==> r == c
  {
    if 'a' <= c <= 'z' then (c as int - 32) as char else c
  }

  /** String.toLowerCase restricted to ASCII. */
  function Lower(s: string): (r: string)
    ensures |r| == |s|
    ensures forall i :: 0 <= i < |s| ==> r[i] == FoldLower(s[i])
  {
    seq(|s|, i requires 0 <= i < |s| => FoldLower(s[i]))
  }

  /** String.toUpperCase restricted to ASCII. */
  function Upper(s: string): (r: string)
    ensures |r| == |s|
    ensures forall i :: 0 <= i < |s| ==> r[i] == FoldUpper(s[i])
  {
    seq(|s|, i requires 0 <= i < |s| => FoldUpper(s[i]))
  }

  /** String.equalsIgnoreCase restricted to ASCII. */
  predicate EqualsIgnoreCase(a: string, b: string)
  {
    Lower(a) == Lower(b)
  }

  /** Upper-casing ignores the case the string was written in. */
  lemma {:induction false} UpperOfLower(s: string)
    ensures Upper(Lower(s)) == Upper(s)
  {
    var l := Lower(s);
    forall i | 0 <= i < |s|
      ensures Upper(l)[i] == Upper(s)[i]
    {
      assert l[i] == FoldLower(s[i]);
    }
  }

  /** String.contains: `t` occurs in `s` as a contiguous piece. */
  predicate Contains(s: string, t: string)
  {
    (|t| <= |s| && s[..|t|] == t) || (|s| > 0 && Contains(s[1..], t))
  }

  /** Stream.filter: the elements satisfying `p`, in their original order. */
  function Filter<T>(s: seq<T>, p: T -> bool): (r: seq<T>)
    ensures |r| <= |s|
    ensures forall i :: 0 <= i < |r| ==> r[i] in s && p(r[i])
    ensures forall i :: 0 <= i < |s| && p(s[i]) ==> s[i] in r
    ensures multiset(r) <= multiset(s)
  {
    if s == [] then []
    else
      assert s == [s[0]] + s[1..];
      (if p(s[0]) then [s[0]] else []) + Filter(s[1..], p)
  }

  /** Filtering keeps the relative order: filtering a concatenation filters each part. */
  lemma {:induction false} FilterAppend<T>(a: seq<T>, b: seq<T>, p: T -> bool)
    ensures Filter(a + b, p) == Filter(a, p) + Filter(b, p)
  {
    if a == [] {
      assert a + b == b;
    } else {
      assert (a + b)[1..] == a[1..] + b;
      FilterAppend(a[1..], b, p);
    }
  }

  /** Filtering by a test that every element passing `q` also passes does not
      change what a later filter by `q` keeps. */
  lemma {:induction false} FilterNarrowed<T>(s: seq<T>, p: T -> bool, q: T -> bool)
    requires forall k :: 0 <= k < |s| && q(s[k]) ==> p(s[k])
    ensures Filter(Filter(s, p), q) == Filter(s, q)
  {
    if s != [] {
      FilterNarrowed(s[1..], p, q);
      var tail := Filter(s[1..], p);
      if p(s[0]) {
        var f := [s[0]] + tail;
        assert Filter(s, p) == f;
        assert f[0] == s[0] && f[1..] == tail;
        assert Filter(f, q) == (if q(s[0]) then [s[0]] else []) + Filter(tail, q);
      } else {
        assert !q(s[0]);
        assert Filter(s, p) == tail;
      }
    }
  }

  /** Stream.findFirst. */
  function First<T>(s: seq<T>): (r: Option<T>)
    ensures r.None? <==> s == []
    ensures r.Some? ==> r.value == s[0]
  {
    if s == [] then None else Some(s[0])
  }

  /** JpaRepository.findById over a table whose rows are kept in insertion order,
      the row at index i carrying the generated id i + 1. */
  function Row<T>(table: seq<T>, id: int): (r: Option<T>)
    ensures r.Some? <==> 1 <= id <= |table|
    ensures r.Some? ==> r.value == table[id - 1] && r.value in table
  {
    if 1 <= id <= |table| then Some(table[id - 1]) else None
  }

  /** The values of a hash map, in an order the map does not promise
      (HashMap.values() copied into a list). */
  method ValuesOf<K(==), V(==)>(m: map<K, V>) returns (r: seq<V>)
    ensures |r| == |m|
    ensures forall v :: v in r <==> v in m.Values
  {
    var rest := m.Keys;
    ghost var done: set<K> := {};
    r := [];
    while rest != {}
      invariant rest + done == m.Keys && rest !! done
      invariant |r| == |done|
      invariant forall v :: v in r ==> v in m.Values
      invariant forall k :: k in done ==> m[k] in r
      decreases |rest|
    {
      var k :| k in rest;
      r := r + [m[k]];
      rest := rest - {k};
      done := done + {k};
    }
    assert done == m.Keys;
    assert |m| == |m.Keys|;
  }

  /** The keys of a hash map, each once, in an order the map does not
      promise (iterating HashMap.entrySet()). */
  method KeysOf<K(==), V>(m: map<K, V>) returns (r: seq<K>)
    ensures |r| == |m|
    ensures forall k :: k in r <==> k in m
  {
    var rest := m.Keys;
    r := [];
    while rest != {}
      invariant rest <= m.Keys
      invariant forall k :: k in r <==> k in m && k !in rest
      invariant |r| + |rest| == |m.Keys|
      decreases |rest|
    {
      var k :| k in rest;
      r := r + [k];
      rest := rest - {k};
    }
    assert |m| == |m.Keys|;
  }

  /** A key under which a map stores the given value. */
  lemma KeyOf<K, V>(m: map<K, V>, v: V) returns (k: K)
    requires v in m.Values
    ensures k in m && m[k] == v
  {
    k :| k in m && m[k] == v;
  }
}
