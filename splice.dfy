/** The two uses of JavaScript's `Array.prototype.splice` that the image
    list editor makes — delete one element, insert one element — and an
    adjacent swap, as functions on sequences, with the facts that connect
    them. */
module Splice {

  /** `a.splice(i, 1)`: the sequence without its element at `i`. */
  function RemoveAt<T>(s: seq<T>, i: int): (r: seq<T>)
    requires 0 <= i < |s|
    ensures |r| == |s| - 1
    ensures forall k :: 0 <= k < i ==> r[k] == s[k]
    ensures forall k :: i <= k < |r| ==> r[k] == s[k + 1]
  {
    s[..i] + s[i + 1..]
  }

  /** `a.splice(i, 0, x)`: `x` inserted so that it ends at position `i`. */
  function InsertAt<T>(s: seq<T>, i: int, x: T): (r: seq<T>)
    requires 0 <= i <= |s|
    ensures |r| == |s| + 1
    ensures r[i] == x
    ensures forall k :: 0 <= k < i ==> r[k] == s[k]
    ensures forall k :: i < k < |r| ==> r[k] == s[k - 1]
  {
    s[..i] + [x] + s[i..]
  }

  /** The sequence with its elements at `i` and `j` exchanged. */
  function Swap<T>(s: seq<T>, i: int, j: int): (r: seq<T>)
    requires 0 <= i < |s| && 0 <= j < |s|
    ensures |r| == |s|
    ensures r[i] == s[j] && r[j] == s[i]
    ensures forall k :: 0 <= k < |s| && k != i && k != j ==> r[k] == s[k]
  {
    s[i := s[j]][j := s[i]]
  }

  /** Deleting what was just inserted gives back the original sequence. */
  lemma RemoveInserted<T>(s: seq<T>, i: int, x: T)
    requires 0 <= i <= |s|
    ensures RemoveAt(InsertAt(s, i, x), i) == s
  {
    var r := RemoveAt(InsertAt(s, i, x), i);
    assert |r| == |s|;
    forall k | 0 <= k < |s| ensures r[k] == s[k] {
      if k < i {
        assert r[k] == InsertAt(s, i, x)[k];
      } else {
        assert r[k] == InsertAt(s, i, x)[k + 1];
      }
    }
  }

  /** Taking an element out and putting it back anywhere keeps the same
      elements with the same multiplicities. */
  lemma MoveIsPermutation<T>(s: seq<T>, i: int, j: int)
    requires 0 <= i < |s| && 0 <= j < |s|
    ensures multiset(InsertAt(RemoveAt(s, i), j, s[i])) == multiset(s)
  {
    var rest := RemoveAt(s, i);
    calc {
      multiset(InsertAt(rest, j, s[i]));
    ==  { assert InsertAt(rest, j, s[i]) == rest[..j] + [s[i]] + rest[j..]; }
      multiset(rest[..j]) + multiset([s[i]]) + multiset(rest[j..]);
    ==  { assert rest == rest[..j] + rest[j..]; }
      multiset(rest) + multiset([s[i]]);
    ==  { assert rest == s[..i] + s[i + 1..]; }
      multiset(s[..i]) + multiset(s[i + 1..]) + multiset([s[i]]);
    ==  { assert s == s[..i] + [s[i]] + s[i + 1..]; }
      multiset(s);
    }
  }

  /** Moving the element at `i` to position `i - 1` exchanges it with its
      predecessor. */
  lemma MoveBackOneIsSwap<T>(s: seq<T>, i: int)
    requires 1 <= i < |s|
    ensures InsertAt(RemoveAt(s, i), i - 1, s[i]) == Swap(s, i - 1, i)
  {
    var r := InsertAt(RemoveAt(s, i), i - 1, s[i]);
    forall k | 0 <= k < |s| ensures r[k] == Swap(s, i - 1, i)[k] {
      if k > i {
        assert r[k] == RemoveAt(s, i)[k - 1];
      } else if k == i {
        assert r[k] == RemoveAt(s, i)[i - 1];
      }
    }
  }

  /** Moving the element at `i` to position `i + 1` exchanges it with its
      successor. */
  lemma MoveForwardOneIsSwap<T>(s: seq<T>, i: int)
    requires 0 <= i < |s| - 1
    ensures InsertAt(RemoveAt(s, i), i + 1, s[i]) == Swap(s, i, i + 1)
  {
    var r := InsertAt(RemoveAt(s, i), i + 1, s[i]);
    forall k | 0 <= k < |s| ensures r[k] == Swap(s, i, i + 1)[k] {
      if k < i + 1 {
        assert r[k] == RemoveAt(s, i)[k];
      } else if k > i + 1 {
        assert r[k] == RemoveAt(s, i)[k - 1];
      }
    }
  }
}
