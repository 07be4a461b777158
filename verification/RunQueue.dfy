/** The run queue: a doubly linked list threaded through the thread structures.  Threads are their addresses and
    0 is the null pointer. */
module RunQueue {

  /** Thr_Queue and the prev_in_ThreadQ and next_in_ThreadQ fields of every thread. */
  datatype Links = Links(head: nat, tail: nat, prev: map<nat, nat>, next: map<nat, nat>)

  /** The thread at index `i`, or null outside the queue. */
  function At(q: seq<nat>, i: int): nat {
    if 0 <= i < |q| then q[i] else 0
  }

  predicate Node(l: Links, q: seq<nat>, i: nat)
    requires i < |q|
  {
    q[i] != 0 && q[i] in l.prev && q[i] in l.next && l.prev[q[i]] == At(q, i - 1) && l.next[q[i]] == At(q, i + 1)
  }

  predicate Differ(q: seq<nat>, i: nat, j: nat)
    requires i < j < |q|
  {
    q[i] != q[j]
  }

  predicate Distinct(q: seq<nat>) {
    forall i: nat, j: nat {:trigger Differ(q, i, j)} :: i < j < |q| ==> Differ(q, i, j)
  }

  /** Head, tail and the links represent the duplicate-free sequence `q`. */
  ghost predicate Queue(l: Links, q: seq<nat>) {
    && l.head == At(q, 0) && l.tail == At(q, |q| - 1)
    && (forall i: nat {:trigger Node(l, q, i)} :: i < |q| ==> Node(l, q, i))
    && Distinct(q)
  }

  /** append_run_queue. */
  function Append(l: Links, t: nat): Links {
    var next := l.next[t := 0];
    if l.tail == 0 then Links(t, t, l.prev[t := 0], next)
    else Links(l.head, t, l.prev[t := l.tail], next[l.tail := t])
  }

  /** remove_runnable_kthread. */
  function Unlink(l: Links, t: nat): Links
    requires t in l.prev && t in l.next
  {
    var p, n := l.prev[t], l.next[t];
    var m := if p != 0 then l.(next := l.next[p := n]) else l.(head := n);
    if n != 0 then m.(prev := m.prev[n := p]) else m.(tail := p)
  }

  function Without(q: seq<nat>, i: nat): seq<nat>
    requires i < |q|
  {
    q[..i] + q[i + 1..]
  }

  lemma AppendQueue(l: Links, q: seq<nat>, t: nat)
    requires Queue(l, q) && t != 0 && t !in q
    ensures Queue(Append(l, t), q + [t])
  {
    var m, r := Append(l, t), q + [t];
    assert q != [] ==> Node(l, q, |q| - 1);
    forall i: nat | i < |r| ensures Node(m, r, i) {
      if i < |q| {
        assert Node(l, q, i);
        assert i + 1 < |q| ==> Differ(q, i, |q| - 1);
      }
    }
    forall i: nat, j: nat | i < j < |r| ensures Differ(r, i, j) {
      assert j < |q| ==> Differ(q, i, j);
    }
  }

  lemma IndexDiffers(q: seq<nat>, i: nat, j: nat)
    requires Distinct(q) && i < |q| && j < |q| && i != j
    ensures q[i] != q[j]
  {
    assert if i < j then Differ(q, i, j) else Differ(q, j, i);
  }

  lemma WithoutDistinct(q: seq<nat>, i: nat)
    requires Distinct(q) && i < |q|
    ensures Distinct(Without(q, i)) && q[i] !in Without(q, i)
    ensures forall t :: t in Without(q, i) <==> t in q && t != q[i]
  {
    var r := Without(q, i);
    forall j: nat, k: nat | j < k < |r| ensures Differ(r, j, k) {
      IndexDiffers(q, if j < i then j else j + 1, if k < i then k else k + 1);
    }
    forall j: nat | j < |r| ensures r[j] != q[i] {
      IndexDiffers(q, if j < i then j else j + 1, i);
    }
    forall t | t in q && t != q[i] ensures t in r {
      var j: nat :| j < |q| && q[j] == t;
      assert t == r[if j < i then j else j - 1];
    }
  }

  /** The fields of `t` name two threads that are next to each other in the queue, or an end of it. */
  predicate Between(l: Links, q: seq<nat>, t: nat, i: nat) {
    t in l.prev && t in l.next && i <= |q| && l.prev[t] == At(q, i - 1) && l.next[t] == At(q, i)
  }

  ghost predicate Adjacent(l: Links, q: seq<nat>, t: nat) {
    exists i: nat {:trigger Between(l, q, t, i)} :: Between(l, q, t, i)
  }

  /** Unlinking a queued thread takes it out, and leaves its own fields naming its former neighbours. */
  lemma UnlinkMember(l: Links, q: seq<nat>, i: nat)
    requires Queue(l, q) && i < |q|
    ensures q[i] in l.prev && q[i] in l.next
    ensures Queue(Unlink(l, q[i]), Without(q, i)) && Between(Unlink(l, q[i]), Without(q, i), q[i], i)
  {
    var t, r := q[i], Without(q, i);
    assert Node(l, q, i);
    var m := Unlink(l, t);
    WithoutDistinct(q, i);
    assert i > 0 ==> Node(l, q, i - 1) && Differ(q, i - 1, i);
    assert i + 1 < |q| ==> Node(l, q, i + 1) && Differ(q, i, i + 1);
    forall j: nat | j < |r| ensures Node(m, r, j) {
      var o := if j < i then j else j + 1;
      assert Node(l, q, o);
      if i > 0 && o != i - 1 { IndexDiffers(q, o, i - 1); }
      if i + 1 < |q| && o != i + 1 { IndexDiffers(q, o, i + 1); }
    }
  }

  /** Unlinking a thread that is not queued does nothing when its stale fields name neighbours. */
  lemma UnlinkStaleSame(l: Links, q: seq<nat>, t: nat, i: nat)
    requires Queue(l, q) && Between(l, q, t, i)
    ensures Unlink(l, t) == l
  {
    if i > 0 {
      assert Node(l, q, i - 1);
      assert l.next[q[i - 1] := l.next[t]] == l.next;
    }
    if i < |q| {
      assert Node(l, q, i);
      assert l.prev[q[i] := l.prev[t]] == l.prev;
    }
  }

  /** The fields of `t` name two threads, neither of them queued. */
  predicate Outside(l: Links, q: seq<nat>, t: nat)
    requires t in l.prev && t in l.next
  {
    l.prev[t] != 0 && l.prev[t] !in q && l.next[t] != 0 && l.next[t] !in q
  }

  lemma UnlinkOutside(l: Links, q: seq<nat>, t: nat)
    requires Queue(l, q) && t in l.prev && t in l.next && Outside(l, q, t)
    ensures Queue(Unlink(l, t), q)
  {
    forall j: nat | j < |q| ensures Node(Unlink(l, t), q, j) {
      assert Node(l, q, j);
      assert q[j] in q;
    }
  }

  lemma PredecessorQueued(l: Links, q: seq<nat>, t: nat)
    requires Queue(l, q) && t in q
    ensures t in l.prev && (l.prev[t] == 0 || l.prev[t] in q)
  {
    var j: nat :| j < |q| && q[j] == t;
    assert Node(l, q, j);
  }

  lemma UnlinkStaleOnly(l: Links, q: seq<nat>, t: nat)
    requires Queue(l, q) && t !in q && t in l.prev && t in l.next && Queue(Unlink(l, t), q)
    ensures Adjacent(l, q, t) || Outside(l, q, t)
  {
    var m := Unlink(l, t);
    if l.prev[t] == 0 {
      assert Between(l, q, t, 0);
    } else if l.prev[t] in q {
      var j: nat :| j < |q| && q[j] == l.prev[t];
      assert Node(m, q, j);
      assert Between(l, q, t, j + 1);
    } else if l.next[t] in q {
      PredecessorQueued(m, q, l.next[t]);
    }
  }

  /** Unlinking a thread that is not queued leaves the queue alone exactly when its stale fields name threads
      that are still neighbours, or two threads that have both left the queue. */
  lemma UnlinkStale(l: Links, q: seq<nat>, t: nat)
    requires Queue(l, q) && t !in q && t in l.prev && t in l.next
    ensures Queue(Unlink(l, t), q) <==> Adjacent(l, q, t) || Outside(l, q, t)
  {
    if Adjacent(l, q, t) {
      var i: nat :| Between(l, q, t, i);
      UnlinkStaleSame(l, q, t, i);
    }
    if Outside(l, q, t) {
      UnlinkOutside(l, q, t);
    }
    if Queue(Unlink(l, t), q) {
      UnlinkStaleOnly(l, q, t);
    }
  }
}
