/** Values shared by every part of the model: optional values, the ways a request
    can fail, and the selections, filters and sorts that the database performs on
    a table held here as a sequence of rows. */
module Common {

  datatype Option<+T> = None | Some(value: T)

  /** An exception nobody catches: the framework answers it with HTTP 500. */
  datatype FaultKind =
    | KeyError          // a claim missing from a decoded token payload
    | AttributeOnNone   // a field read or written on a lookup that found no row
    | IntegrityError    // a unique constraint refused the commit; the session rolls back

  datatype Failure =
    | Http(status: int, detail: string)  // an HTTPException raised by a handler
    | Fault(kind: FaultKind)

  datatype Result<+T> = Ok(value: T) | Err(failure: Failure)

  /** The position of the first element of `s` that satisfies `p`, if any. */
  function FindFirst<T>(s: seq<T>, p: T -> bool): (r: Option<nat>)
    ensures r.Some? ==> r.value < |s| && p(s[r.value])
    ensures r.Some? ==> forall j :: 0 <= j < r.value ==> !p(s[j])
    ensures r.None? <==> forall j :: 0 <= j < |s| ==> !p(s[j])
  {
    if |s| == 0 then None
    else if p(s[0]) then Some(0)
    else match FindFirst(s[1..], p)
      case None => None
      case Some(i) => Some(i + 1)
  }

  /** The elements of `s` that satisfy `p` (a WHERE clause); `FilterAppend` gives their order. */
  function Filter<T>(s: seq<T>, p: T -> bool): (r: seq<T>)
    ensures |r| <= |s|
    ensures forall i :: 0 <= i < |r| ==> p(r[i]) && r[i] in s
    ensures forall x :: x in s && p(x) ==> x in r
    ensures multiset(r) <= multiset(s)
  {
    if |s| == 0 then []
    else
      assert s == [s[0]] + s[1..];
      (if p(s[0]) then [s[0]] else []) + Filter(s[1..], p)
  }

  /** Filtering distributes over concatenation: with `Filter([x], p)` being `[x]` or
      `[]`, the kept elements stay in the order they had in `s`. */
  lemma {:induction false} FilterAppend<T>(a: seq<T>, b: seq<T>, p: T -> bool)
    ensures Filter(a + b, p) == Filter(a, p) + Filter(b, p)
  {
    if |a| == 0 {
      assert a + b == b;
    } else {
      var head := if p(a[0]) then [a[0]] else [];
      var rest, tail := Filter(a[1..], p), Filter(b, p);
      assert (a + b)[0] == a[0] && (a + b)[1..] == a[1..] + b;
      FilterAppend(a[1..], b, p);
      calc {
        Filter(a + b, p);
        head + Filter(a[1..] + b, p);
        head + (rest + tail);
        (head + rest) + tail;
        Filter(a, p) + tail;
      }
    }
  }
  /** The rows `skip .. skip + limit` of a result (OFFSET and LIMIT). */
  function Page<T>(s: seq<T>, skip: nat, limit: nat): (r: seq<T>)
    ensures |r| <= limit
    ensures |r| == if skip >= |s| then 0 else if |s| - skip < limit then |s| - skip else limit
    ensures forall i :: 0 <= i < |r| ==> skip + i < |s| && r[i] == s[skip + i]
  {
    if skip >= |s| then []
    else if |s| - skip < limit then s[skip..]
    else s[skip..skip + limit]
  }

  ghost predicate SortedBy<T>(s: seq<T>, key: T -> int) {
    forall i, j :: 0 <= i < j < |s| ==> key(s[i]) <= key(s[j])
  }

  /** Inserts `x` into a sequence already ordered by `key`. */
  function InsertBy<T>(x: T, s: seq<T>, key: T -> int): (r: seq<T>)
    requires SortedBy(s, key)
    ensures SortedBy(r, key)
    ensures multiset(r) == multiset(s) + multiset{x}
  {
    if |s| == 0 then [x]
    else if key(x) <= key(s[0]) then [x] + s
    else
      var t := InsertBy(x, s[1..], key);
      assert s == [s[0]] + s[1..];
      forall j | 0 <= j < |t| ensures key(s[0]) <= key(t[j]) {
        assert t[j] in multiset(t);
        if t[j] != x {
          assert t[j] in multiset(s[1..]);
          var k :| 0 <= k < |s[1..]| && s[1..][k] == t[j];
          assert s[k + 1] == t[j];
        }
      }
      [s[0]] + t
  }

  /** An ORDER BY on an integer key: ordered, and a permutation of the input. */
  function SortBy<T>(s: seq<T>, key: T -> int): (r: seq<T>)
    ensures SortedBy(r, key)
    ensures multiset(r) == multiset(s)
  {
    if |s| == 0 then []
    else
      assert s == [s[0]] + s[1..];
      InsertBy(s[0], SortBy(s[1..], key), key)
  }

  /** `s` with every character case-folded by `fold`, the lower-casing that the
      database collation behind ILIKE applies. */
  function Lower(s: string, fold: char -> char): (r: string)
    ensures |r| == |s|
    ensures forall i :: 0 <= i < |s| ==> r[i] == fold(s[i])
  {
    seq(|s|, i requires 0 <= i < |s| => fold(s[i]))
  }

  predicate IsSubstring(q: string, s: string) {
    exists i :: 0 <= i <= |s| && q <= s[i..]
  }

  /** `s ILIKE '%q%'`: `q` occurs in `s` once both are case-folded by `fold`. */
  predicate ContainsIgnoreCase(s: string, q: string, fold: char -> char) {
    IsSubstring(Lower(q, fold), Lower(s, fold))
  }
}
