/** The buffer chain: heap nodes linked by next, each showing a window of its data.
    A chain is described by the ghost sequence of its nodes; its contents are the
    windows in order. Allocation succeeds. A freed node is marked, and every
    operation requires that the nodes it touches are not. */
module Buffer {
  import opened CInt

  const SIZE_MODULUS := 0x1_0000_0000_0000_0000

  class Node {
    const data: array<byte>
    const ring: bool
    var userData: nat  // offset of user_data in data
    var userLen: nat
    var next: Node?
    ghost var freed: bool

    /** roar_buffer_new */
    constructor (len: nat)
      ensures fresh(data) && data.Length == len && !ring && !freed
      ensures userData == 0 && userLen == len && next == null
    {
      data := new byte[len](i => 0);
      ring := false;
      userData, userLen, next := 0, len, null;
      freed := false;
    }

    ghost predicate Ok()
      reads this`userData, this`userLen, this`freed
    {
      !freed && userData + userLen <= data.Length
    }

    ghost function View(): seq<byte>
      reads this`userData, this`userLen, data
    {
      if userData + userLen <= data.Length then data[userData..userData + userLen] else []
    }

    /** An offset beyond the window wraps its length, and the window leaves the data. */
    method SetOffset(off: nat)
      requires Ok() && (off <= userLen || off <= SIZE_MODULUS)
      modifies this`userData, this`userLen
      ensures off <= old(userLen) ==> Ok() && View() == old(View())[off..]
      ensures off > old(userLen) && data.Length < SIZE_MODULUS ==> !Ok()
    {
      userLen := if off <= userLen then userLen - off else userLen - off + SIZE_MODULUS;
      userData := userData + off;
    }
  }

  /** chain lists, in order, the nodes reached from head: all usable, none twice. */
  ghost predicate IsChain(head: Node?, chain: seq<Node>)
    reads chain`userData, chain`userLen, chain`freed, chain`next
  {
    if chain == [] then head == null
    else head == chain[0] && chain[0].Ok() && chain[0] !in chain[1..] && IsChain(chain[0].next, chain[1..])
  }

  ghost function Contents(chain: seq<Node>): seq<byte>
    reads chain`userData, chain`userLen, set n | n in chain :: n.data
  {
    if chain == [] then [] else chain[0].View() + Contents(chain[1..])
  }

  lemma ContentsNil()
    ensures Contents([]) == []
  {
  }

  lemma ContentsCons(chain: seq<Node>)
    requires chain != []
    ensures Contents(chain) == chain[0].View() + Contents(chain[1..])
  {
  }

  lemma {:induction false} ContentsAppend(x: seq<Node>, y: seq<Node>)
    ensures Contents(x + y) == Contents(x) + Contents(y)
  {
    if x == [] {
      assert x + y == y;
    } else {
      assert (x + y)[1..] == x[1..] + y;
      ContentsAppend(x[1..], y);
    }
  }

  // ---------- delete, free ----------

  method Delete(buf: Node) returns (next: Node?)
    requires !buf.freed
    modifies buf`freed
    ensures buf.freed && next == buf.next
  {
    next := buf.next;
    buf.freed := true;
  }

  /** roar_buffer_free */
  method Free(buf: Node, ghost chain: seq<Node>)
    requires IsChain(buf, chain)
    modifies chain`freed
    ensures forall n :: n in chain ==> n.freed
  {
    var cur: Node? := buf;
    ghost var rest := chain;
    while cur != null
      invariant IsChain(cur, rest) && forall n :: n in rest ==> n in chain
      invariant forall n :: n in chain && n !in rest ==> n.freed
      decreases |rest|
    {
      cur := Delete(cur);
      rest := rest[1..];
    }
  }

  // ---------- add ----------

  lemma {:induction false} ChainAt(head: Node?, chain: seq<Node>, k: nat)
    requires IsChain(head, chain) && k <= |chain|
    ensures IsChain(if k < |chain| then chain[k] else null, chain[k..])
    ensures 0 < k ==> chain[k - 1].next == if k < |chain| then chain[k] else null
    ensures forall j :: 0 <= j < k && k < |chain| ==> chain[j] != chain[k]
  {
    if k > 0 {
      ChainAt(chain[0].next, chain[1..], k - 1);
      assert chain[1..][k - 1..] == chain[k..];
    }
  }

  /** Nodes that lead from the first to the last, whose next leads back into them. */
  ghost predicate IsCyclic(nodes: seq<Node>)
    reads nodes
  {
    && nodes != []
    && (forall i {:trigger nodes[i].next} :: 0 <= i < |nodes| - 1 ==> nodes[i].next == nodes[i + 1])
    && exists k :: 0 <= k < |nodes| && nodes[|nodes| - 1].next == nodes[k]
  }

  lemma {:induction false} ChainFollows(nodes: seq<Node>, chain: seq<Node>, k: nat)
    requires IsCyclic(nodes) && IsChain(nodes[0], chain)
    requires k < |nodes|
    ensures k < |chain| && chain[k] == nodes[k]
  {
    if k > 0 {
      ChainFollows(nodes, chain, k - 1);
      ChainAt(nodes[0], chain, k);
      assert nodes[k - 1].next == nodes[k];
    }
  }

  /** Once a next pointer leads back, no finite list describes the chain. */
  lemma CyclicIsNoChain(nodes: seq<Node>, chain: seq<Node>)
    requires IsCyclic(nodes)
    ensures !IsChain(nodes[0], chain)
  {
    if IsChain(nodes[0], chain) {
      var n := |nodes|;
      ChainFollows(nodes, chain, n - 1);
      var k :| 0 <= k < n && nodes[n - 1].next == nodes[k];
      ChainFollows(nodes, chain, k);
      ChainAt(nodes[0], chain, n);
      assert false;
    }
  }

  method LastNode(buf: Node, ghost chain: seq<Node>) returns (cur: Node)
    requires IsChain(buf, chain)
    ensures cur == chain[|chain| - 1] && cur.next == null
  {
    cur := buf;
    ghost var rest := chain;
    while cur.next != null
      invariant IsChain(cur, rest) && rest[|rest| - 1] == chain[|chain| - 1]
      decreases |rest|
    {
      cur := cur.next;
      rest := rest[1..];
    }
  }

  /** The links of chain are as before except that the last node now leads to tail. */
  ghost predicate Joined(chain: seq<Node>, next: Node?)
    reads chain
  {
    && (forall i :: 0 <= i < |chain| ==> chain[i].Ok())
    && (forall i {:trigger chain[i].next} :: 0 <= i < |chain| - 1 ==> chain[i].next == chain[i + 1])
    && (chain != [] ==> chain[|chain| - 1].next == next)
    && (forall i, j :: 0 <= i < j < |chain| ==> chain[i] != chain[j])
  }

  lemma {:induction false} JoinedChain(chain: seq<Node>, next: Node?, tail: seq<Node>, k: nat)
    requires Joined(chain, next) && IsChain(next, tail) && k <= |chain|
    requires forall n :: n in chain ==> n !in tail
    ensures IsChain(if k < |chain| then chain[k] else next, chain[k..] + tail)
    decreases |chain| - k
  {
    if k == |chain| {
      assert chain[k..] + tail == tail;
    } else {
      JoinedChain(chain, next, tail, k + 1);
      var both := chain[k..] + tail;
      assert both[1..] == chain[k + 1..] + tail;
      if k + 1 < |chain| {
        assert chain[k].next == chain[k + 1];
      }
    }
  }

  lemma ChainIsJoined(buf: Node?, chain: seq<Node>)
    requires IsChain(buf, chain)
    ensures Joined(chain, null)
  {
    forall i | 0 <= i < |chain|
      ensures chain[i].Ok()
      ensures chain[i].next == if i + 1 < |chain| then chain[i + 1] else null
      ensures forall j :: 0 <= j < i ==> chain[j] != chain[i]
    {
      ChainAt(buf, chain, i);
      ChainAt(buf, chain, i + 1);
    }
  }

  /** Some node of y is also one of x. */
  ghost predicate Share(x: seq<Node>, y: seq<Node>) {
    exists i :: 0 <= i < |y| && y[i] in x
  }

  lemma FirstShared(x: seq<Node>, y: seq<Node>) returns (k: nat)
    requires Share(x, y)
    ensures k < |y| && y[k] in x && forall i :: 0 <= i < k ==> y[i] !in x
  {
    k := 0;
    while y[k] !in x
      invariant k < |y| && forall i :: 0 <= i < k ==> y[i] !in x
      invariant exists i :: k <= i < |y| && y[i] in x
      decreases |y| - k
    {
      k := k + 1;
    }
  }

  /** The walk through x and then y up to the first node of x runs in a circle. */
  lemma LoopsBack(x: seq<Node>, y: seq<Node>, k: nat)
    requires x != [] && k < |y| && Joined(x, y[0]) && y[k] in x
    requires forall i {:trigger y[i].next} :: 0 <= i < k ==> y[i].next == y[i + 1]
    ensures IsCyclic(x + y[..k])
  {
    var walk := x + y[..k];
    var n := |walk|;
    forall i | 0 <= i < n - 1
      ensures walk[i].next == walk[i + 1]
    {
      if i >= |x| {
        assert walk[i] == y[i - |x|] && walk[i + 1] == y[i - |x| + 1];
      } else if i + 1 < |x| {
        assert x[i].next == x[i + 1];
      }
    }
    var j :| 0 <= j < |x| && x[j] == y[k];
    assert walk[j] == y[k];
    assert walk[n - 1].next == y[k] by {
      if k > 0 {
        assert walk[n - 1] == y[k - 1] && y[k - 1].next == y[k - 1 + 1];
      }
    }
  }

  method Relink(last: Node, next: Node?, ghost chain: seq<Node>)
    requires chain != [] && last == chain[|chain| - 1] && Joined(chain, null)
    modifies last`next
    ensures Joined(chain, next) && last.next == next
  {
    last.next := next;
  }

  /** Appends a chain at the end of another. It fails exactly on a ring and on buf itself. A
      successful call leaves a chain exactly when the two had no node in common; otherwise the
      walk from buf never ends. The source looks for next alone, and only reports it. */
  method Add(buf: Node, next: Node?, ghost chain: seq<Node>, ghost tail: seq<Node>) returns (ok: bool)
    requires IsChain(buf, chain) && IsChain(next, tail)
    modifies chain`next
    ensures ok <==> !buf.ring && buf != next
    ensures !ok ==> IsChain(buf, chain) && Contents(chain) == old(Contents(chain))
    ensures ok && !Share(chain, tail) ==> IsChain(buf, chain + tail)
                                          && Contents(chain + tail) == old(Contents(chain)) + old(Contents(tail))
    ensures ok && Share(chain, tail) ==> forall c: seq<Node> :: !IsChain(buf, c)
    ensures forall n :: n in chain && n != chain[|chain| - 1] ==> n.next == old(n.next)
  {
    hide Contents, IsCyclic, Joined, Share;
    if buf.ring {
      return false;
    }
    if buf == next {
      return false;
    }
    ok := true;
    var last := LastNode(buf, chain);
    ChainIsJoined(buf, chain);
    assert last in chain;
    assert chain[0] == buf;
    ghost var k := 0;
    ChainLinks(next, tail);
    if Share(chain, tail) {
      k := FirstShared(chain, tail);
    }
    Relink(last, next, chain);
    if Share(chain, tail) {
      LoopsBack(chain, tail, k);
      forall c: seq<Node> ensures !IsChain(buf, c) {
        CyclicIsNoChain(chain + tail[..k], c);
      }
    } else {
      NoneShared(chain, tail);
      JoinedChain(chain, next, tail, 0);
      assert chain[0..] == chain;
      ContentsAppend(chain, tail);
    }
  }

  lemma NoneShared(x: seq<Node>, y: seq<Node>)
    requires !Share(x, y)
    ensures forall n :: n in x ==> n !in y
  {
  }

  lemma ChainLinks(head: Node?, chain: seq<Node>)
    requires IsChain(head, chain)
    ensures chain != [] ==> chain[0] == head
    ensures forall i {:trigger chain[i].next} :: 0 <= i < |chain| - 1 ==> chain[i].next == chain[i + 1]
  {
    ChainIsJoined(head, chain);
  }

  /** A node holding a copy of the bytes. */
  method NewBuffer(data: seq<byte>) returns (b: Node)
    ensures fresh(b) && fresh(b.data) && !b.ring && IsChain(b, [b]) && Contents([b]) == data
  {
    b := new Node(|data|);
    forall i | 0 <= i < |data| {
      b.data[i] := data[i];
    }
  }

  /** A new node with the given bytes at the end of a chain. */
  method AppendData(buf: Node, data: seq<byte>, ghost chain: seq<Node>) returns (b: Node)
    requires IsChain(buf, chain) && !buf.ring
    modifies chain`next
    ensures fresh(b) && fresh(b.data) && !b.ring
    ensures IsChain(buf, chain + [b]) && Contents(chain + [b]) == old(Contents(chain)) + data
  {
    hide Contents, IsChain;
    b := NewBuffer(data);
    assert forall i :: 0 <= i < |chain| ==> chain[i] != b;
    var ok := Add(buf, b, chain, [b]);
  }

  // ---------- shift out ----------

  function Min(a: nat, b: nat): nat {
    if a < b then a else b
  }

  /** memcpy of n bytes of a node's window to out[at..]. */
  method CopyOut(cur: Node, out: array<byte>, at: nat, n: nat)
    requires cur.Ok() && n <= cur.userLen && at + n <= out.Length && out != cur.data
    modifies out
    ensures out[..at + n] == old(out[..at]) + cur.View()[..n]
    ensures forall k :: at + n <= k < out.Length ==> out[k] == old(out[k])
  {
    forall i | 0 <= i < n {
      out[at + i] := cur.data[cur.userData + i];
    }
  }

  lemma MoveBytes(was: seq<byte>, view: seq<byte>, n: nat, more: seq<byte>)
    requires n <= |view|
    ensures (was + view[..n]) + (view[n..] + more) == was + (view + more)
  {
  }

  /** all is the bytes taken and then those left. */
  ghost predicate Parted(taken: seq<byte>, left: seq<byte>, all: seq<byte>) {
    taken + left == all
  }

  /** The branch that only shortens the front node. */
  method TakePart(cur: Node, out: array<byte>, at: nat, n: nat, ghost rest: seq<Node>, ghost all: seq<byte>)
    requires IsChain(cur, rest) && n < cur.userLen && at + n <= out.Length
    requires forall m :: m in rest ==> m.data != out
    requires Parted(out[..at], Contents(rest), all)
    modifies out, cur`userData, cur`userLen
    ensures IsChain(cur, rest) && Parted(out[..at + n], Contents(rest), all)
    ensures forall k :: at + n <= k < out.Length ==> out[k] == old(out[k])
  {
    hide Contents;
    ghost var was, view, more := out[..at], cur.View(), Contents(rest[1..]);
    ContentsCons(rest);
    CopyOut(cur, out, at, n);
    cur.SetOffset(n);
    assert Contents(rest[1..]) == more;
    ContentsCons(rest);
    MoveBytes(was, view, n, more);
  }

  /** The branch that empties the front node and moves to the next one. */
  method TakeNode(cur: Node, out: array<byte>, at: nat, ghost rest: seq<Node>, ghost all: seq<byte>) returns (next: Node?)
    requires IsChain(cur, rest) && at + cur.userLen <= out.Length
    requires forall m :: m in rest ==> m.data != out
    requires Parted(out[..at], Contents(rest), all)
    modifies out, cur`freed
    ensures IsChain(next, rest[1..]) && cur.freed && Parted(out[..at + cur.userLen], Contents(rest[1..]), all)
    ensures forall k :: at + cur.userLen <= k < out.Length ==> out[k] == old(out[k])
  {
    hide Contents;
    ghost var was, view, more := out[..at], cur.View(), Contents(rest[1..]);
    ContentsCons(rest);
    CopyOut(cur, out, at, cur.userLen);
    assert view[..cur.userLen] == view;
    next := Delete(cur);
    assert Contents(rest[1..]) == more;
  }

  ghost predicate AllFreed(nodes: seq<Node>)
    reads nodes`freed
  {
    forall i :: 0 <= i < |nodes| ==> nodes[i].freed
  }

  /** A chain has no freed node in it. */
  lemma {:induction false} FreedApart(head: Node?, chain: seq<Node>, gone: seq<Node>)
    requires IsChain(head, chain) && AllFreed(gone)
    ensures forall i :: 0 <= i < |gone| ==> gone[i] !in chain
  {
    if chain != [] {
      FreedApart(chain[0].next, chain[1..], gone);
    }
  }

  /** One turn of the loop. */
  method TakeSome(cur: Node, out: array<byte>, at: nat, todo: nat, ghost rest: seq<Node>, ghost all: seq<byte>)
    returns (next: Node?, n: nat, ghost left: seq<Node>)
    requires IsChain(cur, rest) && 0 < todo && at + todo <= out.Length
    requires forall m :: m in rest ==> m.data != out
    requires Parted(out[..at], Contents(rest), all)
    modifies out, cur`userData, cur`userLen, cur`freed
    ensures n <= todo && IsChain(next, left) && Parted(out[..at + n], Contents(left), all)
    ensures forall k :: at + n <= k < out.Length ==> out[k] == old(out[k])
    ensures rest != [] && rest[0] == cur
    ensures if cur.freed then left == rest[1..] else left == rest && n == todo
  {
    hide Contents, IsChain, Parted;
    ChainStep(cur, rest);
    n := cur.userLen;
    if n > todo {
      n := todo;
      TakePart(cur, out, at, n, rest, all);
      next, left := cur, rest;
    } else {
      next := TakeNode(cur, out, at, rest, all);
      left := rest[1..];
    }
  }

  /** Takes up to len bytes from the front: exactly the first min(len, total) bytes go
      to out, exactly the rest stays, drained nodes are freed and the others kept. */
  method ShiftOut(buf: Node, out: array<byte>, len: nat, ghost chain: seq<Node>)
    returns (head: Node?, got: nat, ghost rest: seq<Node>, ghost dropped: seq<Node>)
    requires IsChain(buf, chain)
    requires len <= out.Length
    requires forall n :: n in chain ==> n.data != out
    modifies out, chain`userData, chain`userLen, chain`freed
    ensures got == Min(len, |old(Contents(chain))|)
    ensures out[..got] == old(Contents(chain))[..got]
    ensures forall k :: got <= k < out.Length ==> out[k] == old(out[k])
    ensures chain == dropped + rest && IsChain(head, rest)
    ensures Contents(rest) == old(Contents(chain))[got..]
    ensures AllFreed(dropped)
    ensures rest != [] ==> got == len
  {
    hide Contents, IsChain, Parted;
    var todo: nat := len;
    var cur: Node? := buf;
    got, rest, dropped := 0, chain, [];
    ghost var all := Contents(chain);
    NothingTaken(out[..got], all);
    while todo > 0 && cur != null
      invariant got + todo == len
      invariant chain == dropped + rest && IsChain(cur, rest)
      invariant Parted(out[..got], Contents(rest), all)
      invariant forall k :: got <= k < out.Length ==> out[k] == old(out[k])
      invariant AllFreed(dropped)
      decreases todo + |rest|
    {
      ChainStep(cur, rest);
      ghost var front: Node := cur;
      assert front == chain[|dropped|];
      assert forall n :: n in rest ==> n in chain;
      var n;
      ghost var left;
      cur, n, left := TakeSome(cur, out, got, todo, rest, all);
      todo := todo - n;
      got := got + n;
      if front.freed {
        MoveHead(dropped, rest);
        dropped := dropped + [front];
      }
      rest := left;
    }
    head := cur;
    ContentsNil();
    ChainStep(head, rest);
    SplitTaken(out[..got], Contents(rest), all);
  }

  /** ShiftOut beside nodes freed before: they and the drained ones are freed. */
  method ShiftOutOf(buf: Node, out: array<byte>, len: nat, ghost chain: seq<Node>, ghost gone: seq<Node>)
    returns (head: Node?, got: nat, ghost rest: seq<Node>, ghost dropped: seq<Node>)
    requires IsChain(buf, chain) && AllFreed(gone)
    requires len <= out.Length
    requires forall n :: n in chain ==> n.data != out
    modifies out, chain`userData, chain`userLen, chain`freed
    ensures got == Min(len, |old(Contents(chain))|)
    ensures out[..got] == old(Contents(chain))[..got]
    ensures chain == dropped + rest && IsChain(head, rest)
    ensures Contents(rest) == old(Contents(chain))[got..]
    ensures AllFreed(gone + dropped)
  {
    hide IsChain, Contents;
    FreedApart(buf, chain, gone);
    head, got, rest, dropped := ShiftOut(buf, out, len, chain);
  }

  lemma MoveHead(x: seq<Node>, y: seq<Node>)
    requires y != []
    ensures x + y == (x + [y[0]]) + y[1..]
  {
  }

  lemma NothingTaken(none: seq<byte>, all: seq<byte>)
    requires none == []
    ensures Parted(none, all, all)
  {
  }

  lemma SplitTaken(taken: seq<byte>, rest: seq<byte>, all: seq<byte>)
    requires Parted(taken, rest, all)
    ensures all == taken + rest && all[..|taken|] == taken && all[|taken|..] == rest
  {
  }

  // ---------- stats and duplicate ----------

  /** parts and bytes of roar_buffer_ring_stats; bytes is an int and wraps as one. */
  method RingStats(buf: Node, ghost chain: seq<Node>) returns (parts: nat, bytes: int32)
    requires IsChain(buf, chain)
    ensures parts == |chain|
    ensures bytes == ToInt32(|Contents(chain)|)
  {
    hide Contents, ToInt32, IsChain;
    parts, bytes := 0, ToInt32(0);
    ContentsNil();
    var cur: Node? := buf;
    ghost var rest := chain;
    ghost var seen: nat := 0;
    while cur != null
      invariant IsChain(cur, rest)
      invariant parts + |rest| == |chain| && seen + |Contents(rest)| == |Contents(chain)|
      invariant bytes == ToInt32(seen)
      decreases |rest|
    {
      NextBytes(cur, rest);
      parts := parts + 1;
      ToInt32Add(seen, cur.userLen);
      bytes := ToInt32(bytes + cur.userLen);
      seen := seen + cur.userLen;
      cur := cur.next;
      rest := rest[1..];
    }
    ChainStep(cur, rest);
  }

  lemma NextBytes(cur: Node, rest: seq<Node>)
    requires IsChain(cur, rest)
    ensures rest != [] && IsChain(cur.next, rest[1..])
    ensures |Contents(rest)| == cur.userLen + |Contents(rest[1..])|
  {
  }

  /** The tail of the copying loop: the first copy becomes the head, and adding it to
      itself is the error the source ignores; every later copy goes to the end. */
  method AppendCopy(copy: Node?, new_: Node, ghost dup: seq<Node>) returns (head: Node)
    requires IsChain(copy, dup) && IsChain(new_, [new_]) && new_ !in dup
    requires copy != null ==> !copy.ring
    modifies dup`next, new_`next
    ensures IsChain(head, dup + [new_])
    ensures Contents(dup + [new_]) == old(Contents(dup)) + old(Contents([new_]))
    ensures head == if copy == null then new_ else copy
  {
    hide Contents;
    if copy == null {
      head := new_;
      var ignored := Add(head, new_, [new_], [new_]);
      ContentsNil();
      assert dup + [new_] == [new_];
    } else {
      head := copy;
      var ignored := Add(head, new_, dup, [new_]);
    }
  }

  method CopyStep(cur: Node, copy: Node?, ghost dup: seq<Node>) returns (head: Node, ghost longer: seq<Node>)
    requires cur.Ok() && IsChain(copy, dup)
    requires copy != null ==> !copy.ring
    modifies dup`next
    ensures |longer| == |dup| + 1 && longer[..|dup|] == dup
    ensures fresh(longer[|dup|]) && fresh(longer[|dup|].data)
    ensures IsChain(head, longer) && !head.ring
    ensures Contents(longer) == old(Contents(dup)) + old(cur.View())
  {
    hide Contents, IsChain;
    var new_ := CopyNode(cur);
    assert forall i :: 0 <= i < |dup| ==> dup[i] != new_;
    head := AppendCopy(copy, new_, dup);
    longer := dup + [new_];
  }

  /** Copies a chain node by node into fresh memory. */
  method Duplicate(buf: Node?, ghost chain: seq<Node>) returns (copy: Node?, ghost dup: seq<Node>)
    requires IsChain(buf, chain)
    ensures IsChain(copy, dup) && fresh(dup) && forall n :: n in dup ==> fresh(n.data)
    ensures |dup| == |chain| && Contents(dup) == Contents(chain)
  {
    hide Contents, IsChain;
    copy := null;
    dup := [];
    ContentsNil();
    ChainNil();
    var cur := buf;
    ghost var rest := chain;
    ghost var all := Contents(chain);
    while cur != null
      invariant IsChain(cur, rest) && (forall n :: n in rest ==> n in chain)
      invariant IsChain(copy, dup) && fresh(dup) && forall n :: n in dup ==> fresh(n.data)
      invariant copy != null ==> !copy.ring
      invariant forall n :: n in chain ==> n !in dup
      invariant |dup| + |rest| == |chain|
      invariant Contents(dup) + Contents(rest) == all
      decreases |rest|
    {
      ChainStep(cur, rest);
      ContentsCons(rest);
      ghost var had, view, more := Contents(dup), cur.View(), Contents(rest[1..]);
      ghost var next := cur.next;
      assert cur in chain;
      rest := rest[1..];
      assert forall i :: 0 <= i < |rest| ==> rest[i] in chain && rest[i] !in dup;
      copy, dup := CopyStep(cur, copy, dup);
      assert IsChain(next, rest) && Contents(rest) == more;
      assert (had + view) + more == had + (view + more);
      cur := cur.next;
    }
    ChainStep(cur, rest);
  }

  lemma SingleChain(b: Node)
    requires b.Ok() && b.next == null
    ensures IsChain(b, [b])
  {
  }

  lemma ChainNil()
    ensures IsChain(null, [])
  {
  }

  lemma ChainStep(head: Node?, chain: seq<Node>)
    requires IsChain(head, chain)
    ensures head == null <==> chain == []
    ensures head != null ==> head == chain[0] && head.Ok() && IsChain(head.next, chain[1..])
  {
  }

  /** roar_buffer_new for the same length, then memcpy of the window. */
  method CopyNode(cur: Node) returns (copy: Node)
    requires cur.Ok()
    ensures fresh(copy) && fresh(copy.data) && !copy.ring && IsChain(copy, [copy])
    ensures Contents([copy]) == cur.View()
  {
    copy := new Node(cur.userLen);
    forall i | 0 <= i < cur.userLen {
      copy.data[i] := cur.data[cur.userData + i];
    }
  }
}
