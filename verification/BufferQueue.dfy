/** The buffer chain as a byte queue: any interleaving of adding buffers at the end and
    shifting bytes out at the front. */
module BufferQueue {
  import opened CInt
  import opened Buffer
  import opened Util

  /** Put adds a chain of buffers, one for each of its parts. */
  datatype Op = Put(parts: seq<seq<byte>>) | Take(len: nat)

  /** What a byte queue q answers to each Take: its front bytes, as many as there are. */
  function Served(q: seq<byte>, ops: seq<Op>): seq<seq<byte>>
    decreases |ops|
  {
    if ops == [] then []
    else
      match ops[0]
      case Put(parts) => Served(q + Flatten(parts), ops[1..])
      case Take(len) =>
        var n := Min(len, |q|);
        [q[..n]] + Served(q[n..], ops[1..])
  }

  /** What is left in the queue. */
  function Left(q: seq<byte>, ops: seq<Op>): seq<byte>
    decreases |ops|
  {
    if ops == [] then q
    else
      match ops[0]
      case Put(parts) => Left(q + Flatten(parts), ops[1..])
      case Take(len) => Left(q[Min(len, |q|)..], ops[1..])
  }

  function AllPut(ops: seq<Op>): seq<byte>
    decreases |ops|
  {
    if ops == [] then []
    else (match ops[0] case Put(parts) => Flatten(parts) case Take(_) => []) + AllPut(ops[1..])
  }

  /** Over every run the bytes served, in order, and then those left are the bytes put, in order. */
  lemma {:induction false} NothingLost(q: seq<byte>, ops: seq<Op>)
    ensures Flatten(Served(q, ops)) + Left(q, ops) == q + AllPut(ops)
    decreases |ops|
  {
    hide Flatten;
    FlattenNone<byte>();
    if ops == [] {
    } else {
      match ops[0]
      case Put(parts) =>
        var data := Flatten(parts);
        NothingLost(q + data, ops[1..]);
        assert (q + data) + AllPut(ops[1..]) == q + (data + AllPut(ops[1..]));
      case Take(len) =>
        var n := Min(len, |q|);
        NothingLost(q[n..], ops[1..]);
        FlattenCons(q[..n], Served(q[n..], ops[1..]));
        Regroup(q, n, Flatten(Served(q[n..], ops[1..])), Left(q[n..], ops[1..]), AllPut(ops[1..]));
    }
  }

  lemma Regroup(q: seq<byte>, n: nat, served: seq<byte>, left: seq<byte>, put: seq<byte>)
    requires n <= |q| && served + left == q[n..] + put
    ensures (q[..n] + served) + left == q + put
  {
    assert (q[..n] + served) + left == q[..n] + (served + left);
    assert q[..n] + (q[n..] + put) == q + put;
  }

  ghost predicate Ours(chain: seq<Node>)
    reads chain
  {
    forall i :: 0 <= i < |chain| ==> !chain[i].ring
  }

  /** Puts bytes at the end, or starts a chain with them. */
  method PutBytes(head: Node?, data: seq<byte>, ghost chain: seq<Node>) returns (now: Node, b: Node)
    requires IsChain(head, chain) && Ours(chain)
    modifies chain`next
    ensures fresh(b) && fresh(b.data)
    ensures IsChain(now, chain + [b]) && Ours(chain + [b])
    ensures Contents(chain + [b]) == old(Contents(chain)) + data
  {
    hide Contents;
    ChainStep(head, chain);
    ContentsNil();
    if head == null {
      b := NewBuffer(data);
      now := b;
      assert chain + [b] == [b];
    } else {
      b := AppendData(head, data, chain);
      now := head;
    }
  }

  /** A new chain of one buffer for each part. */
  method NewChain(parts: seq<seq<byte>>) returns (head: Node?, ghost chain: seq<Node>)
    ensures forall j :: 0 <= j < |chain| ==> fresh(chain[j]) && fresh(chain[j].data)
    ensures IsChain(head, chain) && Ours(chain) && Contents(chain) == Flatten(parts) && |chain| == |parts|
  {
    hide Contents, IsChain, Flatten;
    ContentsNil();
    ChainNil();
    FlattenNone<byte>();
    head, chain := null, [];
    for i := 0 to |parts|
      invariant forall j :: 0 <= j < |chain| ==> fresh(chain[j]) && fresh(chain[j].data)
      invariant IsChain(head, chain) && Ours(chain) && |chain| == i
      invariant Contents(chain) == Flatten(parts[..i])
    {
      assert parts[..i + 1][..i] == parts[..i];
      FlattenLast(parts[..i + 1]);
      var b;
      head, b := PutBytes(head, parts[i], chain);
      chain := chain + [b];
    }
    assert parts[..|parts|] == parts;
  }

  /** Adds such a chain, or starts with it. */
  method PutParts(head: Node?, parts: seq<seq<byte>>, ghost chain: seq<Node>)
    returns (now: Node?, ghost longer: seq<Node>)
    requires IsChain(head, chain) && Ours(chain)
    modifies chain`next
    ensures |chain| <= |longer| && longer[..|chain|] == chain
    ensures forall j :: |chain| <= j < |longer| ==> fresh(longer[j]) && fresh(longer[j].data)
    ensures IsChain(now, longer) && Ours(longer)
    ensures Contents(longer) == old(Contents(chain)) + Flatten(parts)
  {
    hide Contents, IsChain, Flatten, Share;
    ChainStep(head, chain);
    ContentsNil();
    ghost var added;
    now, added := NewChain(parts);
    assert forall j :: 0 <= j < |added| ==> added[j] !in chain;
    Apart(chain, added);
    longer := chain + added;
    if head == null {
      assert longer == added;
    } else {
      assert head == chain[0];
      StartsElsewhere(now, added, chain);
      var ok := Add(head, now, chain, added);
      now := head;
    }
  }

  lemma Apart(x: seq<Node>, y: seq<Node>)
    requires forall j :: 0 <= j < |y| ==> y[j] !in x
    ensures !Share(x, y)
  {
  }

  lemma StartsElsewhere(head: Node?, y: seq<Node>, x: seq<Node>)
    requires IsChain(head, y) && x != [] && forall j :: 0 <= j < |y| ==> y[j] !in x
    ensures head != x[0]
  {
  }

  /** Takes bytes from the front; on no chain at all that is an error and gives none. */
  method TakeBytes(head: Node?, len: nat, ghost chain: seq<Node>)
    returns (now: Node?, bytes: seq<byte>, ghost rest: seq<Node>, ghost k: nat)
    requires IsChain(head, chain) && Ours(chain)
    modifies chain`userData, chain`userLen, chain`freed
    ensures k <= |chain| && rest == chain[k..] && IsChain(now, rest) && Ours(rest)
    ensures bytes == old(Contents(chain))[..Min(len, |old(Contents(chain))|)]
    ensures Contents(rest) == old(Contents(chain))[Min(len, |old(Contents(chain))|)..]
  {
    hide Contents;
    ChainStep(head, chain);
    ContentsNil();
    if head == null {
      return null, [], [], 0;
    }
    var out := new byte[len];
    var got;
    ghost var dropped;
    now, got, rest, dropped := ShiftOut(head, out, len, chain);
    k := |dropped|;
    bytes := out[..got];
  }

  /** The chain refines the queue: whatever is added and shifted out in whatever order, every
      shift answers as the queue does and the chain holds what the queue holds. */
  method Drive(ops: seq<Op>) returns (served: seq<seq<byte>>, head: Node?, ghost chain: seq<Node>)
    ensures served == Served([], ops)
    ensures IsChain(head, chain) && Contents(chain) == Left([], ops)
  {
    hide Contents, IsChain, Flatten;
    ContentsNil();
    ChainNil();
    served, head, chain := [], null, [];
    for i := 0 to |ops|
      invariant IsChain(head, chain) && Ours(chain)
      invariant forall j :: 0 <= j < |chain| ==> fresh(chain[j]) && fresh(chain[j].data)
      invariant served + Served(Contents(chain), ops[i..]) == Served([], ops)
      invariant Left(Contents(chain), ops[i..]) == Left([], ops)
    {
      assert ops[i..][1..] == ops[i + 1..];
      match ops[i]
      case Put(parts) =>
        ghost var longer;
        head, longer := PutParts(head, parts, chain);
        assert forall j :: 0 <= j < |longer| ==> fresh(longer[j]) && fresh(longer[j].data) by {
          assert forall j :: 0 <= j < |chain| ==> longer[j] == longer[..|chain|][j];
        }
        chain := longer;
      case Take(len) =>
        var bytes;
        ghost var k;
        head, bytes, chain, k := TakeBytes(head, len, chain);
        served := served + [bytes];
    }
    assert ops[|ops|..] == [];
  }
}
