/** The intrusive doubly linked lists behind every collection of the engine
    (the `list_append`, `list_delete` and `list_foreach` macros).

    In C the `prev` and `next` pointers are fields of the elements themselves;
    here they are two maps keyed by the element, held in a value `Links` that
    the owner of the list reassigns. The head's `prev` points at the tail and
    the tail's `next` is NULL (`None`). A ghost sequence is tied to the links
    by `Represents`. */
module IntrusiveList {
  import opened Wrappers

  datatype Links<T(==)> = Links(head: Option<T>, prev: map<T, T>, next: map<T, Option<T>>)

  function Empty<T(==)>(): Links<T>
  {
    Links(None, map[], map[])
  }

  /** The element at position `k` of `s`, or `None` one past the end. */
  function At<T>(s: seq<T>, k: nat): Option<T>
  {
    if k < |s| then Some(s[k]) else None
  }

  predicate Distinct<T(==)>(s: seq<T>)
  {
    forall i, j :: 0 <= i < j < |s| ==> s[i] != s[j]
  }

  /** The links of position `k` of `s`: `prev` is the predecessor (the tail
      for the head) and `next` the successor (NULL for the tail). */
  predicate LinkAt<T(==)>(l: Links<T>, s: seq<T>, k: nat)
    requires k < |s|
  {
    && s[k] in l.prev && s[k] in l.next
    && l.prev[s[k]] == (if k == 0 then s[|s| - 1] else s[k - 1])
    && l.next[s[k]] == At(s, k + 1)
  }

  /** The links `l` hold exactly the elements of `s`, in this order. */
  predicate Represents<T(==)>(l: Links<T>, s: seq<T>)
  {
    && Distinct(s)
    && l.head == At(s, 0)
    && forall k :: 0 <= k < |s| ==> LinkAt(l, s, k)
  }

  lemma EmptyRepresents<T>()
    ensures Represents(Empty<T>(), [])
  {
  }

  /** `list_append(head, add)`: the four pointer updates of the macro, in its order. */
  function Append<T(==)>(l: Links<T>, add: T): Links<T>
    requires l.head.Some? ==> l.head.value in l.prev
  {
    match l.head
    case Some(h) =>
      var tail := l.prev[h];
      var prev1 := l.prev[add := tail];
      var next1 := l.next[tail := Some(add)];
      var prev2 := prev1[h := add];
      var next2 := next1[add := None];
      Links(l.head, prev2, next2)
    case None =>
      Links(Some(add), l.prev[add := add], l.next[add := None])
  }

  /** `list_delete(head, del)`: the three cases of the macro. */
  function Delete<T(==)>(l: Links<T>, del: T): Links<T>
    requires del in l.prev && del in l.next
    requires l.prev[del] != del && l.head == Some(del) ==> l.next[del].Some?
    requires l.prev[del] != del && l.head != Some(del) ==> l.head.Some?
  {
    if l.prev[del] == del then
      Links(None, l.prev, l.next)
    else if l.head == Some(del) then
      var succ := l.next[del].value;
      Links(Some(succ), l.prev[succ := l.prev[del]], l.next)
    else
      var next1 := l.next[l.prev[del] := l.next[del]];
      match l.next[del]
      case Some(succ) => Links(l.head, l.prev[succ := l.prev[del]], next1)
      case None => Links(l.head, l.prev[l.head.value := l.prev[del]], next1)
  }

  /** `list_append` puts the new element at the tail and keeps the order of
      the others. */
  lemma AppendAtTail<T>(l: Links<T>, s: seq<T>, add: T)
    requires Represents(l, s)
    requires add !in s
    ensures l.head.Some? ==> l.head.value in l.prev
    ensures Represents(Append(l, add), s + [add])
  {
    if s != [] {
      assert LinkAt(l, s, 0);
    }
    var s' := s + [add];
    var l' := Append(l, add);
    if s == [] {
      assert s' == [add];
      assert LinkAt(l', s', 0);
    } else {
      var n := |s|;
      assert LinkAt(l, s, 0);
      assert LinkAt(l, s, n - 1);
      assert l'.head == At(s', 0);
      forall k | 0 <= k < |s'|
        ensures LinkAt(l', s', k)
      {
        if k < n {
          assert LinkAt(l, s, k);
          assert s'[k] == s[k] && s[k] != add;
          if k > 0 {
            assert s[k] != s[0];
            assert s'[k - 1] == s[k - 1];
          }
          if k + 1 < n {
            assert s[k] != s[n - 1];
            assert s'[k + 1] == s[k + 1];
          }
        } else {
          assert s'[k] == add && add != s[0];
        }
      }
      assert Distinct(s') by {
        forall i, j | 0 <= i < j < |s'| ensures s'[i] != s'[j] {
          if j < n {
            assert s'[i] == s[i] && s'[j] == s[j];
          }
        }
      }
    }
  }

  /** The part of `s` left after removing position `k`. */
  function Without<T>(s: seq<T>, k: nat): seq<T>
    requires k < |s|
  {
    s[..k] + s[k + 1..]
  }

  /** `list_delete` removes exactly `del` and keeps the order of the rest. */
  lemma DeleteRemoves<T>(l: Links<T>, s: seq<T>, k: nat)
    requires Represents(l, s)
    requires k < |s|
    ensures var del := s[k];
      && LinkAt(l, s, k)
      && del in l.prev && del in l.next
      && (l.prev[del] != del && l.head == Some(del) ==> l.next[del].Some?)
      && (l.prev[del] != del && l.head != Some(del) ==> l.head.Some?)
      && Represents(Delete(l, del), Without(s, k))
  {
    WithoutDistinct(s, k);
    if |s| == 1 {
      assert Without(s, k) == [];
    } else if k == 0 {
      DeleteHead(l, s);
    } else {
      DeleteInner(l, s, k);
    }
  }

  lemma WithoutDistinct<T>(s: seq<T>, k: nat)
    requires Distinct(s) && k < |s|
    ensures Distinct(Without(s, k))
  {
    var w := Without(s, k);
    forall i, j | 0 <= i < j < |w| ensures w[i] != w[j] {
      var i' := if i < k then i else i + 1;
      var j' := if j < k then j else j + 1;
      assert w[i] == s[i'] && w[j] == s[j'] && i' < j';
    }
  }

  lemma DeleteHead<T>(l: Links<T>, s: seq<T>)
    requires Represents(l, s) && |s| > 1
    requires Distinct(Without(s, 0))
    ensures LinkAt(l, s, 0) && l.prev[s[0]] != s[0] && l.next[s[0]].Some?
    ensures Represents(Delete(l, s[0]), Without(s, 0))
  {
    assert LinkAt(l, s, 0);
    assert s[0] != s[|s| - 1];
    var l' := Delete(l, s[0]);
    var w := Without(s, 0);
    assert w == s[1..];
    forall j | 0 <= j < |w|
      ensures LinkAt(l', w, j)
    {
      DeleteHeadAt(l, s, j);
    }
  }

  /** One position of the list left by deleting the head. */
  lemma DeleteHeadAt<T>(l: Links<T>, s: seq<T>, j: nat)
    requires Represents(l, s) && |s| > 1 && j < |s| - 1
    requires LinkAt(l, s, 0) && l.prev[s[0]] != s[0] && l.next[s[0]].Some?
    ensures LinkAt(Delete(l, s[0]), Without(s, 0), j)
  {
    var n := |s|;
    var w := Without(s, 0);
    assert w == s[1..];
    assert LinkAt(l, s, j + 1);
    assert w[j] == s[j + 1];
    if j > 0 {
      assert s[j + 1] != s[1];
      assert w[j - 1] == s[j];
    } else {
      assert w[|w| - 1] == s[n - 1];
    }
    if j + 1 < |w| {
      assert w[j + 1] == s[j + 2];
    }
  }

  lemma DeleteInner<T>(l: Links<T>, s: seq<T>, k: nat)
    requires Represents(l, s) && 0 < k < |s|
    requires Distinct(Without(s, k))
    ensures LinkAt(l, s, k) && l.prev[s[k]] != s[k] && l.head != Some(s[k]) && l.head.Some?
    ensures Represents(Delete(l, s[k]), Without(s, k))
  {
    var n := |s|;
    var w := Without(s, k);
    var del := s[k];
    assert LinkAt(l, s, k);
    assert LinkAt(l, s, k - 1);
    assert del != s[k - 1] && del != s[0];
    var l' := Delete(l, del);
    assert forall j :: 0 <= j < |w| ==> w[j] == (if j < k then s[j] else s[j + 1]);
    assert l'.head == At(w, 0);
    forall j | 0 <= j < |w|
      ensures LinkAt(l', w, j)
    {
      var j' := if j < k then j else j + 1;
      assert LinkAt(l, s, j');
      assert w[j] == s[j'] && s[j'] != del;
      if j' != k - 1 {
        assert s[j'] != s[k - 1];
      }
      if k + 1 < n {
        assert LinkAt(l, s, k + 1);
        if j' != k + 1 {
          assert s[j'] != s[k + 1];
        }
      } else if j' != 0 {
        assert s[j'] != s[0];
      }
      if j > 0 {
        var i' := if j - 1 < k then j - 1 else j;
        assert w[j - 1] == s[i'];
      } else {
        assert w[|w| - 1] == s[if k == n - 1 then n - 2 else n - 1];
      }
      if j + 1 < |w| {
        var i' := if j + 1 < k then j + 1 else j + 2;
        assert w[j + 1] == s[i'];
      }
    }
  }

  /** `list_foreach(head, cur)`: starting at the head and following `next`
      visits every element once, in insertion order. */
  method Walk<T(==)>(l: Links<T>, ghost s: seq<T>) returns (visited: seq<T>)
    requires Represents(l, s)
    ensures visited == s
  {
    visited := [];
    var cur := l.head;
    ghost var k := 0;
    while cur.Some?
      invariant 0 <= k <= |s|
      invariant cur == At(s, k)
      invariant visited == s[..k]
      decreases |s| - k
    {
      assert LinkAt(l, s, k);
      visited := visited + [cur.value];
      cur := l.next[cur.value];
      k := k + 1;
    }
  }
}
