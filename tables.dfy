/**
 * Generic operations on a table held as the sequence of its rows in creation order,
 * which is the order the hosted database returns them in, and on JavaScript arrays.
 */
module Tables {
  import opened Wrappers

  /**
   * Stands for the error the hosted database raises when a mutation patches a row that does
   * not exist; the application's own code has no message of its own for this case.
   */
  const MissingDocument: string := "Document not found"

  /** The position of the first row satisfying `p`: what `.filter(p).first()` finds. */
  function FirstIndex<T>(s: seq<T>, p: T -> bool): (r: Option<nat>)
    ensures r.Some? ==> r.value < |s| && p(s[r.value])
    ensures r.Some? ==> forall j :: 0 <= j < r.value ==> !p(s[j])
    ensures r.None? <==> forall j :: 0 <= j < |s| ==> !p(s[j])
  {
    if |s| == 0 then None
    else if p(s[0]) then Some(0)
    else
      match FirstIndex(s[1..], p)
      case None => None
      case Some(i) => Some(i + 1)
  }

  /** The rows satisfying `p`, in their original order (`Array.prototype.filter`). */
  function Filter<T>(s: seq<T>, p: T -> bool): (r: seq<T>)
    ensures |r| <= |s|
    ensures forall i :: 0 <= i < |r| ==> p(r[i]) && r[i] in s
    ensures forall x :: x in s && p(x) ==> x in r
  {
    if |s| == 0 then []
    else if p(s[0]) then [s[0]] + Filter(s[1..], p)
    else Filter(s[1..], p)
  }

  /** What a filter keeps of a single element. */
  function Kept<T>(x: T, p: T -> bool): (r: seq<T>)
    ensures r == Filter([x], p)
  {
    if p(x) then [x] else []
  }

  lemma FilterCons<T>(x: T, s: seq<T>, p: T -> bool)
    ensures Filter([x] + s, p) == Kept(x, p) + Filter(s, p)
  {
    assert ([x] + s)[1..] == s;
  }

  lemma {:induction false} FilterAppend<T>(s: seq<T>, t: seq<T>, p: T -> bool)
    ensures Filter(s + t, p) == Filter(s, p) + Filter(t, p)
  {
    if |s| == 0 {
      assert s + t == t;
    } else {
      assert (s + t)[1..] == s[1..] + t;
      FilterAppend(s[1..], t, p);
    }
  }

  /** A filter no row passes leaves nothing. */
  lemma {:induction false} FilterNone<T>(s: seq<T>, p: T -> bool)
    requires forall i :: 0 <= i < |s| ==> !p(s[i])
    ensures Filter(s, p) == []
  {
    if |s| > 0 {
      FilterNone(s[1..], p);
    }
  }

  /** Dropping rows never makes two rows share a key. */
  lemma {:induction false} FilterUnique<T, K>(s: seq<T>, p: T -> bool, key: T -> K)
    requires UniqueBy(s, key)
    ensures UniqueBy(Filter(s, p), key)
  {
    if |s| > 0 {
      assert UniqueBy(s[1..], key) by {
        forall i, j | 0 <= i < j < |s[1..]| ensures key(s[1..][i]) != key(s[1..][j]) {
          assert s[1..][i] == s[i + 1] && s[1..][j] == s[j + 1];
        }
      }
      FilterUnique(s[1..], p, key);
      var rest := Filter(s[1..], p);
      if p(s[0]) {
        forall j | 0 <= j < |rest| ensures key(s[0]) != key(rest[j]) {
          assert rest[j] in s[1..];
          var k :| 0 <= k < |s[1..]| && s[1..][k] == rest[j];
          assert s[k + 1] == rest[j];
        }
        assert Filter(s, p) == [s[0]] + rest;
      }
    }
  }

  /** The rows in which no two share a key. */
  ghost predicate UniqueBy<T, K>(s: seq<T>, key: T -> K) {
    forall i, j :: 0 <= i < j < |s| ==> key(s[i]) != key(s[j])
  }

  /** Every row's id is below `bound`, the next id the table will hand out. */
  ghost predicate IdsBelow<T>(s: seq<T>, id: T -> nat, bound: nat) {
    forall i :: 0 <= i < |s| ==> id(s[i]) < bound
  }

  /**
   * Deleting row `i` of a keyed table keeps the keys unique and removes exactly the rows with
   * row `i`'s key.
   */
  lemma RemoveRow<T, K>(s: seq<T>, i: nat, key: T -> K)
    requires i < |s| && UniqueBy(s, key)
    ensures var rest := s[..i] + s[i + 1..];
      && |rest| == |s| - 1
      && UniqueBy(rest, key)
      && (forall k :: 0 <= k < |rest| ==> rest[k] in s && key(rest[k]) != key(s[i]))
      && (forall k :: 0 <= k < |s| && key(s[k]) != key(s[i]) ==> s[k] in rest)
  {
    var rest := s[..i] + s[i + 1..];
    assert forall k :: 0 <= k < |rest| ==> rest[k] == (if k < i then s[k] else s[k + 1]);
    forall k | 0 <= k < |s| && key(s[k]) != key(s[i]) ensures s[k] in rest {
      if k < i {
        assert rest[k] == s[k];
      } else {
        assert rest[k - 1] == s[k];
      }
    }
  }

  /** In a keyed table, row `i` is not among the rows before it. */
  lemma NextRow<T, K>(s: seq<T>, i: nat, key: T -> K)
    requires i < |s| && UniqueBy(s, key)
    ensures s[i] !in s[..i]
    ensures s[..i + 1] == s[..i] + [s[i]]
  {
    forall j | 0 <= j < i ensures s[..i][j] != s[i] {
      assert key(s[j]) != key(s[i]);
    }
  }

  /** `s` has no repeated element. */
  ghost predicate NoDuplicates<T>(s: seq<T>) {
    forall i, j :: 0 <= i < j < |s| ==> s[i] != s[j]
  }

  /** `s` is in non-increasing order of `key`. */
  ghost predicate SortedDesc<T>(s: seq<T>, key: T -> real) {
    forall i, j :: 0 <= i < j < |s| ==> key(s[i]) >= key(s[j])
  }

  /**
   * Inserts `x` before the first element whose key is not greater than its own, so that among
   * equal keys the inserted element comes first.
   */
  function InsertDesc<T>(x: T, s: seq<T>, key: T -> real): (r: seq<T>)
    ensures multiset(r) == multiset(s) + multiset{x}
    ensures |r| == |s| + 1
    ensures r[0] == x || (|s| > 0 && r[0] == s[0])
  {
    if |s| == 0 || key(s[0]) <= key(x) then [x] + s
    else
      assert s == [s[0]] + s[1..];
      [s[0]] + InsertDesc(x, s[1..], key)
  }

  lemma {:induction false} InsertDescSorted<T>(x: T, s: seq<T>, key: T -> real)
    requires SortedDesc(s, key)
    ensures SortedDesc(InsertDesc(x, s, key), key)
  {
    if |s| == 0 || key(s[0]) <= key(x) {
    } else {
      InsertDescSorted(x, s[1..], key);
      var r := InsertDesc(x, s[1..], key);
      assert key(s[0]) >= key(r[0]);
      assert InsertDesc(x, s, key) == [s[0]] + r;
    }
  }

  /**
   * A stable sort into non-increasing key order: the effect of
   * `a.sort((x, y) => key(y) - key(x))` on a JavaScript array.
   */
  function SortDesc<T>(s: seq<T>, key: T -> real): (r: seq<T>)
    ensures multiset(r) == multiset(s)
    ensures |r| == |s|
    ensures SortedDesc(r, key)
  {
    if |s| == 0 then []
    else
      assert s == [s[0]] + s[1..];
      InsertDescSorted(s[0], SortDesc(s[1..], key), key);
      InsertDesc(s[0], SortDesc(s[1..], key), key)
  }

  /** How `Array.prototype.slice` resolves a possibly negative index against a length. */
  function RelativeIndex(len: nat, i: int): (r: nat)
    ensures r <= len
    ensures i >= 0 ==> r == (if i <= len then i else len)
    ensures i < 0 ==> r == (if len + i >= 0 then len + i else 0)
  {
    if i < 0 then (if len + i >= 0 then len + i else 0)
    else if i <= len then i else len
  }

  /** `s.slice(start, end)`. */
  function JsSlice<T>(s: seq<T>, start: int, end: int): (r: seq<T>)
    ensures |r| <= |s|
    ensures start == 0 ==> r == s[..RelativeIndex(|s|, end)]
  {
    var a := RelativeIndex(|s|, start);
    var b := RelativeIndex(|s|, end);
    if a < b then s[a..b] else []
  }

  /** `s.slice(start)`. */
  function JsSliceFrom<T>(s: seq<T>, start: int): (r: seq<T>)
    ensures r == s[RelativeIndex(|s|, start)..]
  {
    JsSlice(s, start, |s|)
  }

  /** `s.slice(-n)` for n >= 1: the last min(n, |s|) elements, in their original order. */
  lemma LastElements<T>(s: seq<T>, n: int)
    requires n >= 1
    ensures JsSliceFrom(s, -n) == if n <= |s| then s[|s| - n..] else s
  {
  }
}
