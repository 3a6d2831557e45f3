/** The XOR metric between a stack and a node, and the search for the closest node. */
module XorMetric {
  import opened Ids

  /** `BigInt::from_bytes_le` with a positive sign. */
  function FromBytesLe(s: Blob): nat {
    if s == [] then 0 else s[0] + 256 * FromBytesLe(s[1..])
  }

  /** Exclusive or of two non-negative big integers. */
  function Xor(a: nat, b: nat): nat
    decreases a + b
  {
    if a == 0 && b == 0 then 0
    else (if a % 2 == b % 2 then 0 else 1) + 2 * Xor(a / 2, b / 2)
  }

  function Distance(id: StackID, h: NodeHash): nat {
    Xor(FromBytesLe(id.key), FromBytesLe(h.bytes))
  }

  /** Node `a` is strictly closer to the stack than node `b`. */
  predicate Closer(id: StackID, a: NodeHash, b: NodeHash) {
    Distance(id, a) < Distance(id, b)
  }

  lemma {:induction false} XorUndoesItself(a: nat, b: nat)
    ensures Xor(a, Xor(a, b)) == b
    decreases a + b
  {
    if a == 0 && b == 0 {
    } else {
      var x := Xor(a, b);
      assert x / 2 == Xor(a / 2, b / 2) && x % 2 == (if a % 2 == b % 2 then 0 else 1);
      XorUndoesItself(a / 2, b / 2);
    }
  }

  lemma {:induction false} FromBytesLeInjective(s: Blob, t: Blob)
    requires |s| == |t|
    requires FromBytesLe(s) == FromBytesLe(t)
    ensures s == t
  {
    if s != [] {
      FromBytesLeInjective(s[1..], t[1..]);
      assert s == [s[0]] + s[1..] && t == [t[0]] + t[1..];
    }
  }

  // ---- The metric byte by byte ----

  /** `x` with `k` zero bits appended. */
  function Shifted(k: nat, x: nat): nat {
    if k == 0 then x else 2 * Shifted(k - 1, x)
  }

  /** Exclusive or works on low and high bits separately. */
  lemma {:induction false} XorSplits(k: nat, x0: nat, x: nat, y0: nat, y: nat)
    requires x0 < Shifted(k, 1) && y0 < Shifted(k, 1)
    ensures Xor(x0 + Shifted(k, x), y0 + Shifted(k, y)) == Xor(x0, y0) + Shifted(k, Xor(x, y))
  {
    if k > 0 {
      XorSplits(k - 1, x0 / 2, x, y0 / 2, y);
      OneMoreBit(x0, y0, Shifted(k - 1, x), Shifted(k - 1, y), Shifted(k - 1, Xor(x, y)));
    }
  }

  lemma {:induction false} OneMoreBit(x0: nat, y0: nat, px: nat, py: nat, rest: nat)
    requires Xor(x0 / 2 + px, y0 / 2 + py) == Xor(x0 / 2, y0 / 2) + rest
    ensures Xor(x0 + 2 * px, y0 + 2 * py) == Xor(x0, y0) + 2 * rest
  {
    HalfOfSum(x0, px);
    HalfOfSum(y0, py);
    FromHalves(x0 + 2 * px, y0 + 2 * py, x0, y0, x0 / 2 + px, y0 / 2 + py, rest);
  }

  lemma {:induction false} FromHalves(a: nat, b: nat, x0: nat, y0: nat, halfA: nat, halfB: nat, rest: nat)
    requires a / 2 == halfA && b / 2 == halfB && a % 2 == x0 % 2 && b % 2 == y0 % 2
    requires Xor(halfA, halfB) == Xor(x0 / 2, y0 / 2) + rest
    ensures Xor(a, b) == Xor(x0, y0) + 2 * rest
  {
    XorHalves(a, b);
    XorHalves(x0, y0);
  }

  lemma {:induction false} XorFits(k: nat, a: nat, b: nat)
    requires a < Shifted(k, 1) && b < Shifted(k, 1)
    ensures Xor(a, b) < Shifted(k, 1)
  {
    if k > 0 {
      XorFits(k - 1, a / 2, b / 2);
      XorHalves(a, b);
    }
  }

  lemma {:induction false} HalfOfSum(x0: nat, x: nat)
    ensures (x0 + 2 * x) / 2 == x0 / 2 + x && (x0 + 2 * x) % 2 == x0 % 2
  {
  }

  lemma {:induction false} XorHalves(a: nat, b: nat)
    ensures Xor(a, b) == (if a % 2 == b % 2 then 0 else 1) + 2 * Xor(a / 2, b / 2)
  {
  }

  lemma {:induction false} XorLaws(a: nat, b: nat)
    ensures Xor(a, b) == Xor(b, a) && Xor(a, 0) == a && Xor(a, a) == 0
    decreases a + b
  {
    if a != 0 || b != 0 {
      XorLaws(a / 2, b / 2);
    }
  }

  /** The distance of byte strings read as little-endian numbers. */
  function BytesDistance(s: Blob, t: Blob): nat {
    Xor(FromBytesLe(s), FromBytesLe(t))
  }

  lemma {:induction false} ByteShift(x: nat)
    ensures Shifted(8, x) == 256 * x
  {
    assert Shifted(1, x) == 2 * x;
    assert Shifted(2, x) == 4 * x;
    assert Shifted(3, x) == 8 * x;
    assert Shifted(4, x) == 16 * x;
    assert Shifted(5, x) == 32 * x;
    assert Shifted(6, x) == 64 * x;
    assert Shifted(7, x) == 128 * x;
  }

  lemma {:induction false} DistanceByByte(s: Blob, t: Blob)
    requires |s| == |t| > 0
    ensures BytesDistance(s, t) == Xor(s[0], t[0]) + 256 * BytesDistance(s[1..], t[1..]) && Xor(s[0], t[0]) < 256
  {
    ByteShift(1);
    ByteShift(FromBytesLe(s[1..]));
    ByteShift(FromBytesLe(t[1..]));
    ByteShift(BytesDistance(s[1..], t[1..]));
    XorSplits(8, s[0], FromBytesLe(s[1..]), t[0], FromBytesLe(t[1..]));
    XorFits(8, s[0], t[0]);
  }

  /** Who is closer is decided at the last byte in which the two hashes differ: the bytes before it do not matter.
      There, the smaller exclusive or with the stack's byte wins. */
  lemma {:induction false} LastDifferenceDecides(key: Blob, a: Blob, b: Blob, k: nat)
    requires |key| == |a| == |b| && k < |key| && a[k] != b[k]
    requires forall i :: k < i < |key| ==> a[i] == b[i]
    ensures BytesDistance(key, a) < BytesDistance(key, b) <==> Xor(key[k], a[k]) < Xor(key[k], b[k])
  {
    DistanceByByte(key, a);
    DistanceByByte(key, b);
    if k == 0 {
      assert a[1..] == b[1..];
    } else {
      LastDifferenceDecides(key[1..], a[1..], b[1..], k - 1);
      DifferentDistance(key[1..], a[1..], b[1..]);
    }
  }

  lemma {:induction false} DifferentDistance(key: Blob, a: Blob, b: Blob)
    requires |key| == |a| == |b| && a != b
    ensures BytesDistance(key, a) != BytesDistance(key, b)
  {
    XorUndoesItself(FromBytesLe(key), FromBytesLe(a));
    XorUndoesItself(FromBytesLe(key), FromBytesLe(b));
    if FromBytesLe(a) == FromBytesLe(b) {
      FromBytesLeInjective(a, b);
    }
  }

  /** So for two nodes and a stack. */
  lemma {:induction false} CloserByLastDifference(id: StackID, a: NodeHash, b: NodeHash, k: nat)
    requires k < KEY_SIZE && a.bytes[k] != b.bytes[k]
    requires forall i :: k < i < KEY_SIZE ==> a.bytes[i] == b.bytes[i]
    ensures Closer(id, a, b) <==> Xor(id.key[k], a.bytes[k]) < Xor(id.key[k], b.bytes[k])
  {
    LastDifferenceDecides(id.key, a.bytes, b.bytes, k);
  }

  /** Two different nodes are never equally far from a stack, so there are no ties to break. */
  lemma {:induction false} DistanceInjective(id: StackID, a: NodeHash, b: NodeHash)
    requires Distance(id, a) == Distance(id, b)
    ensures a == b
  {
    var x := FromBytesLe(id.key);
    XorUndoesItself(x, FromBytesLe(a.bytes));
    XorUndoesItself(x, FromBytesLe(b.bytes));
    FromBytesLeInjective(a.bytes, b.bytes);
  }

  lemma {:induction false} CloserTotal(id: StackID, a: NodeHash, b: NodeHash)
    requires a != b
    ensures Closer(id, a, b) || Closer(id, b, a)
  {
    if Distance(id, a) == Distance(id, b) {
      DistanceInjective(id, a, b);
    }
  }

  datatype ClosestNodeResult = Me | Other(node: NodeHash)

  /** What the search promises: `Me` when nobody is strictly closer, and otherwise a node that is
      strictly closer than me and at least as close as everybody else. */
  ghost predicate IsClosest(id: StackID, me: NodeHash, others: set<NodeHash>, r: ClosestNodeResult) {
    match r
    case Me => forall h <- others :: !Closer(id, h, me)
    case Other(n) => n in others && Closer(id, n, me) && forall h <- others :: !Closer(id, h, n)
  }

  lemma {:induction false} ClosestUnique(
    id: StackID, me: NodeHash, others: set<NodeHash>, r: ClosestNodeResult, q: ClosestNodeResult)
    requires IsClosest(id, me, others, r) && IsClosest(id, me, others, q)
    ensures r == q
  {
    if r.Other? && q.Other? {
      DistanceInjective(id, r.node, q.node);
    }
  }

  ghost function ClosestNode(id: StackID, me: NodeHash, others: set<NodeHash>): (r: ClosestNodeResult)
    ensures IsClosest(id, me, others, r)
  {
    if others == {} then Me
    else
      var h :| h in others;
      var rest := ClosestNode(id, me, others - {h});
      var best := if rest.Me? then me else rest.node;
      assert forall g <- others :: g == h || g in others - {h};
      if Closer(id, h, best) then Other(h) else rest
  }

  /** The linear search. The set is visited in an arbitrary order, as a hash set's iterator does;
      the answer does not depend on it. */
  method GetClosestNode(id: StackID, me: NodeHash, others: set<NodeHash>) returns (result: ClosestNodeResult)
    ensures IsClosest(id, me, others, result)
    ensures result == ClosestNode(id, me, others)
  {
    var minDistance := Distance(id, me);
    result := Me;
    var todo := others;
    while todo != {}
      invariant todo <= others
      invariant minDistance == Distance(id, if result.Me? then me else result.node)
      invariant IsClosest(id, me, others - todo, result)
    {
      var hash :| hash in todo;
      ghost var seen := others - todo;
      todo := todo - {hash};
      var distance := Distance(id, hash);
      if distance < minDistance {
        minDistance := distance;
        result := Other(hash);
      }
      assert forall g <- others - todo :: g == hash || g in seen;
    }
    assert others - todo == others;
    ClosestUnique(id, me, others, result, ClosestNode(id, me, others));
  }

  /** Every node of a cluster that runs the search against all the others reaches the same verdict:
      exactly one says `Me`, and all the rest name that one. */
  lemma {:induction false} ClosestNodeAgreement(id: StackID, nodes: set<NodeHash>) returns (closest: NodeHash)
    requires nodes != {}
    ensures closest in nodes
    ensures forall n <- nodes :: n != closest ==> Closer(id, closest, n)
    ensures forall n <- nodes ::
      ClosestNode(id, n, nodes - {n}) == if n == closest then Me else Other(closest)
  {
    var some :| some in nodes;
    var r := ClosestNode(id, some, nodes);
    closest := if r.Me? then some else r.node;
    forall n | n in nodes
      ensures n != closest ==> Closer(id, closest, n)
      ensures ClosestNode(id, n, nodes - {n}) == if n == closest then Me else Other(closest)
    {
      assert !Closer(id, n, closest);
      if n != closest {
        if !Closer(id, closest, n) {
          DistanceInjective(id, closest, n);
        }
      }
      ClosestUnique(id, n, nodes - {n}, ClosestNode(id, n, nodes - {n}), if n == closest then Me else Other(closest));
    }
  }
}
