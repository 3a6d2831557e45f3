/** Lexicographic ranges of byte strings, and the range that stands for a prefix. */
module KeyRange {
  import opened Ids

  /** Lexicographic order: the order in which the key-value store sorts its keys. */
  predicate Less(a: Blob, b: Blob) {
    b != [] && (a == [] || a[0] < b[0] || (a[0] == b[0] && Less(a[1..], b[1..])))
  }

  lemma {:induction false} LessTrichotomy(a: Blob, b: Blob)
    ensures a == b || Less(a, b) || Less(b, a)
    ensures !(Less(a, b) && Less(b, a)) && !Less(a, a)
  {
    if a != [] {
      if b != [] && a[0] == b[0] {
        LessTrichotomy(a[1..], b[1..]);
        assert a == [a[0]] + a[1..] && b == [b[0]] + b[1..];
      } else {
        LessTrichotomy(a[1..], a[1..]);
      }
    }
  }

  lemma {:induction false} LessTransitive(a: Blob, b: Blob, c: Blob)
    requires Less(a, b) && Less(b, c)
    ensures Less(a, c)
  {
    if a != [] && a[0] == b[0] == c[0] {
      LessTransitive(a[1..], b[1..], c[1..]);
    }
  }

  /** From `lower`, inclusive, to `upper`, exclusive. */
  datatype BoundRange = BoundRange(lower: Option<Blob>, upper: Option<Blob>)

  predicate InRange(r: BoundRange, k: Blob) {
    && (r.lower.Some? ==> !Less(k, r.lower.value))
    && (r.upper.Some? ==> Less(k, r.upper.value))
  }

  function Zeros(n: nat): (r: Blob)
    ensures |r| == n && forall i | 0 <= i < n :: r[i] == 0
  {
    if n == 0 then [] else [0] + Zeros(n - 1)
  }

  /** The prefix plus one, as a big-endian number of fixed width; none when every byte is 0xFF. */
  function Carried(p: Blob): (r: Option<Blob>)
    ensures r.Some? ==> |r.value| == |p|
  {
    if p == [] then None
    else
      match Carried(p[1..])
      case Some(rest) => Some([p[0]] + rest)
      case None => if p[0] == 255 then None else Some([p[0] + 1] + Zeros(|p| - 1))
  }

  function SubsetRange(p: Blob): BoundRange {
    if p == [] then BoundRange(None, None) else BoundRange(Some(p), Carried(p))
  }

  function Reversed(s: Blob): Blob {
    if s == [] then [] else [s[|s| - 1]] + Reversed(s[..|s| - 1])
  }

  /** The carry loop: walks the bytes from the last to the first, pushing into a buffer that is reversed
      at the end. */
  method MakeSubsetRange(from: Blob) returns (r: BoundRange)
    ensures r == SubsetRange(from)
  {
    if from == [] {
      return BoundRange(None, None);
    }
    var max, to: Blob := true, [];
    var i := |from|;
    while i > 0
      invariant 0 <= i <= |from|
      invariant Carried(from[i..]) == if max then None else Some(Reversed(to))
      invariant max ==> Reversed(to) == Zeros(|from| - i)
    {
      i := i - 1;
      assert from[i..][1..] == from[i + 1..];
      var byte := from[i];
      var pushed: Byte := if max then (if byte == 255 then 0 else byte + 1) else byte;
      assert (to + [pushed])[..|to|] == to;
      to := to + [pushed];
      max := max && byte == 255;
    }
    assert from[0..] == from;
    r := BoundRange(Some(from), if max then None else Some(Reversed(to)));
  }

  /** The last index whose byte is not 0xFF, or -1. */
  function LastNonMax(p: Blob): (j: int)
    ensures -1 <= j < |p|
    ensures j >= 0 ==> p[j] != 255
    ensures forall i | j < i < |p| :: p[i] == 255
  {
    if p == [] then -1 else if p[|p| - 1] != 255 then |p| - 1 else LastNonMax(p[..|p| - 1])
  }

  /** `k` is `u` cut short somewhere after index `j`. */
  ghost predicate IsCut(u: Blob, j: int, k: Blob) {
    exists i: nat :: j < i < |u| && k == u[..i]
  }

  /** Keys in the range of a prefix that lack the prefix: the carried bound cut short after the carry. */
  ghost predicate Overshoot(p: Blob, k: Blob) {
    Carried(p).Some? && IsCut(Carried(p).value, LastNonMax(p), k)
  }

  lemma {:induction false} LastNonMaxCons(p: Blob)
    requires p != []
    ensures LastNonMax(p) ==
      if LastNonMax(p[1..]) >= 0 then LastNonMax(p[1..]) + 1 else if p[0] != 255 then 0 else -1
  {
    var j, j' := LastNonMax(p), LastNonMax(p[1..]);
    assert forall i | 1 <= i < |p| :: p[i] == p[1..][i - 1];
    assert j >= 1 ==> p[1..][j - 1] != 255;
  }

  /** The carried bound keeps the bytes before the last non-0xFF one, adds one there, and zeroes the rest. */
  lemma {:induction false} CarriedShape(p: Blob)
    ensures Carried(p).Some? <==> LastNonMax(p) >= 0
    ensures
      var j := LastNonMax(p);
      j >= 0 ==> Carried(p) == Some(p[..j] + [p[j] + 1] + Zeros(|p| - 1 - j))
  {
    if p != [] {
      LastNonMaxCons(p);
      CarriedShape(p[1..]);
      var j' := LastNonMax(p[1..]);
      if j' >= 0 {
        assert p[..j' + 1] == [p[0]] + p[1..][..j'];
        assert Carried(p).value == p[..j' + 1] + [p[j' + 1] + 1] + Zeros(|p| - 2 - j');
      } else if p[0] != 255 {
        assert p[..0] + [p[0] + 1] + Zeros(|p| - 1) == [p[0] + 1] + Zeros(|p| - 1);
      }
    }
  }

  lemma {:induction false} LessThanZeros(k: Blob, n: nat)
    ensures Less(k, Zeros(n)) <==> |k| < n && k == Zeros(|k|)
  {
    if k != [] && n > 0 {
      assert Zeros(n)[1..] == Zeros(n - 1);
      LessThanZeros(k[1..], n - 1);
      assert k == [k[0]] + k[1..];
      assert Zeros(|k|) == [0] + Zeros(|k| - 1);
    }
  }

  /** Peeling the first byte off a prefix whose tail still carries. */
  lemma {:induction false} OvershootTail(p: Blob, k: Blob)
    requires p != [] && k != [] && Carried(p[1..]).Some?
    ensures Overshoot(p, k) <==> k[0] == p[0] && Overshoot(p[1..], k[1..])
  {
    LastNonMaxCons(p);
    CarriedShape(p[1..]);
    var u := Carried(p[1..]).value;
    assert Carried(p).value == [p[0]] + u;
    CutsOfTail(p[0], u, LastNonMax(p[1..]), k);
  }

  lemma {:induction false} CutsOfTail(b: Byte, u: Blob, j: nat, k: Blob)
    requires k != []
    ensures IsCut([b] + u, j + 1, k) <==> k[0] == b && IsCut(u, j, k[1..])
  {
    if IsCut([b] + u, j + 1, k) {
      var i: nat :| j + 1 < i < |[b] + u| && k == ([b] + u)[..i];
      assert k[1..] == u[..i - 1];
    }
    if k[0] == b && IsCut(u, j, k[1..]) {
      var i: nat :| j < i < |u| && k[1..] == u[..i];
      assert k == [b] + u[..i];
      assert ([b] + u)[..i + 1] == [b] + u[..i];
    }
  }

  lemma {:induction false} CutZeros(b: Byte, m: nat, i: nat)
    requires 1 <= i <= m + 1
    ensures ([b] + Zeros(m))[..i] == [b] + Zeros(i - 1)
  {
  }

  lemma {:induction false} CutsOfHead(b: Byte, m: nat, k: Blob)
    requires k != []
    ensures IsCut([b] + Zeros(m), 0, k) <==> k[0] == b && Less(k[1..], Zeros(m))
  {
    var u := [b] + Zeros(m);
    LessThanZeros(k[1..], m);
    if IsCut(u, 0, k) {
      var i: nat :| 0 < i < |u| && k == u[..i];
      CutZeros(b, m, i);
    }
    if k[0] == b && Less(k[1..], Zeros(m)) {
      CutZeros(b, m, |k|);
      assert k == [k[0]] + k[1..];
    }
  }

  /** The carry reaches the first byte: what overshoots is that byte plus one followed by a few zeros. */
  lemma {:induction false} OvershootHead(p: Blob, k: Blob)
    requires p != [] && k != [] && Carried(p[1..]).None? && p[0] != 255
    ensures Overshoot(p, k) <==> k[0] == p[0] + 1 && Less(k[1..], Zeros(|p| - 1))
  {
    LastNonMaxCons(p);
    CarriedShape(p[1..]);
    CutsOfHead(p[0] + 1, |p| - 1, k);
  }

  ghost predicate Within(p: Blob, k: Blob) {
    !Less(k, p) && (Carried(p).Some? ==> Less(k, Carried(p).value))
  }

  lemma {:induction false} PrefixCons(p: Blob, k: Blob)
    requires p != [] && k != []
    ensures p <= k <==> p[0] == k[0] && p[1..] <= k[1..]
  {
    assert p == [p[0]] + p[1..] && k == [k[0]] + k[1..];
    if p[0] == k[0] && p[1..] <= k[1..] {
      assert k == p + k[1..][|p| - 1..];
    }
  }

  lemma {:induction false} WithinCons(p: Blob, k: Blob)
    requires p != [] && k != []
    ensures Within(p, k) <==>
      if Carried(p[1..]).Some? then k[0] == p[0] && Within(p[1..], k[1..])
      else (k[0] == p[0] && Within(p[1..], k[1..])) || (p[0] != 255 && k[0] == p[0] + 1 && Less(k[1..], Zeros(|p| - 1)))
  {
    var first: Byte := k[0];
    if Carried(p[1..]).Some? {
      assert Carried(p).value[1..] == Carried(p[1..]).value;
    } else if p[0] != 255 {
      assert Carried(p).value[1..] == Zeros(|p| - 1);
    }
  }

  lemma {:induction false} WithinExact(p: Blob, k: Blob)
    ensures Within(p, k) <==> p <= k || Overshoot(p, k)
  {
    CarriedShape(p);
    if p != [] && k != [] {
      WithinExact(p[1..], k[1..]);
      PrefixCons(p, k);
      WithinCons(p, k);
      if Carried(p[1..]).Some? {
        OvershootTail(p, k);
      } else if p[0] != 255 {
        OvershootHead(p, k);
      }
    }
  }

  /** The exact meaning of a prefix range: the keys with the prefix, and the keys that overshoot. */
  lemma {:induction false} PrefixRangeExact(p: Blob, k: Blob)
    requires p != []
    ensures InRange(SubsetRange(p), k) <==> p <= k || Overshoot(p, k)
  {
    WithinExact(p, k);
  }

  /** So the range is exactly the prefix when the prefix does not end in 0xFF, or is all 0xFF. */
  lemma {:induction false} ExactWithoutTrailingMax(p: Blob, k: Blob)
    requires p != []
    requires p[|p| - 1] != 255 || forall i | 0 <= i < |p| :: p[i] == 255
    ensures InRange(SubsetRange(p), k) <==> p <= k
  {
    PrefixRangeExact(p, k);
    CarriedShape(p);
  }

  /** And it is wider whenever the prefix ends in 0xFF but has another byte. */
  lemma {:induction false} WiderWithTrailingMax(p: Blob)
    requires p != [] && p[|p| - 1] == 255
    requires exists i :: 0 <= i < |p| && p[i] != 255
    ensures Carried(p).Some? && InRange(SubsetRange(p), Carried(p).value[..|p| - 1])
      && !(p <= Carried(p).value[..|p| - 1])
  {
    CarriedShape(p);
    PrefixRangeExact(p, Carried(p).value[..|p| - 1]);
  }
}
