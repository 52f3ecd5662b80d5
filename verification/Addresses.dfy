// Addresses and their places in a pool: the daemon's getAddressByIndex and the
// controller's GetIndexInRange are inverse to each other.
module Addresses {
  import opened Powers
  import opened Blocks
  import opened Compute
  import opened Daemon

  lemma Scale(d: int, e: int, u: int)
    ensures (d * 256 + e) * u == d * (256 * u) + e * u
  {
    assert (d * 256 + e) * u == (d * 256) * u + e * u;
  }

  // The distance of two dotted addresses after their first i bytes, scaled up.
  function Distance(a: seq<Byte>, b: seq<Byte>, i: nat): int
    requires |a| == |b| == 4 && i <= 4
  {
    (FromBytes(a[..i]) - FromBytes(b[..i])) * Pow2(8 * (4 - i))
  }

  lemma DistanceStep(a: seq<Byte>, b: seq<Byte>, i: nat)
    requires |a| == |b| == 4 && i < 4
    ensures Distance(a, b, i + 1) == Distance(a, b, i) + (a[i] as int - b[i] as int) * Pow2(8 * (3 - i))
  {
    assert a[..i + 1][..i] == a[..i] && b[..i + 1][..i] == b[..i];
    var d, e, u := FromBytes(a[..i]) - FromBytes(b[..i]), a[i] as int - b[i] as int, Pow2(8 * (3 - i));
    assert FromBytes(a[..i + 1]) - FromBytes(b[..i + 1]) == d * 256 + e;
    Pow2Add(8, 8 * (3 - i));
    assert Pow2(8) == 256;
    Scale(d, e, u);
  }

  // What the loop has summed up after i bytes.
  function Partial(a: seq<Byte>, b: seq<Byte>, i: nat): int
    requires |a| == |b| == 4 && i <= 4
  {
    if i == 0 then 0 else Partial(a, b, i - 1) + (a[i - 1] as int - b[i - 1] as int) * Pow2(8 * (4 - i))
  }

  lemma {:induction false} PartialIsDistance(a: seq<Byte>, b: seq<Byte>, i: nat)
    requires |a| == |b| == 4 && i <= 4
    ensures Partial(a, b, i) == Distance(a, b, i)
  {
    if i > 0 {
      PartialIsDistance(a, b, i - 1);
      DistanceStep(a, b, i - 1);
    }
  }

  function IndexInRange(pod: Cidr, address: nat): (bool, int)
    requires pod.len <= 32
  {
    if Contains(pod, address) then (true, address - pod.base) else (false, -1)
  }

  // The loop over the bytes that differ.
  method SumDistance(address: seq<Byte>, start: seq<Byte>) returns (index: int)
    requires |start| == |address| == 4
    ensures index == FromBytes(address) - FromBytes(start)
  {
    index := 0;
    for i := 0 to 4
      invariant index == Partial(address, start, i)
    {
      if address[i] != start[i] {
        var diff := address[i] as int - start[i] as int;
        index := index + diff * Pow2(8 * (3 - i));
      }
    }
    WholeIsDistance(address, start);
  }

  // Byte by byte, over the dotted forms of the pod CIDR and the address.
  method GetIndexInRange(start: seq<Byte>, p: nat, address: seq<Byte>) returns (contains: bool, index: int)
    requires |start| == |address| == 4 && p <= 32
    ensures (contains, index) == IndexInRange(Cidr(FromBytes(start), p), FromBytes(address))
  {
    var base := AddrToValue(start);
    var value := AddrToValue(address);
    if !Contains(Cidr(base, p), value) { return false, -1; }
    index := SumDistance(address, start);
    return true, index;
  }

  lemma WholeIsDistance(a: seq<Byte>, b: seq<Byte>)
    requires |a| == |b| == 4
    ensures Partial(a, b, 4) == FromBytes(a) - FromBytes(b)
  {
    PartialIsDistance(a, b, 4);
    assert a[..4] == a && b[..4] == b;
  }

  // Index to address and back, and address to index and back.
  lemma RoundTrip(pod: Cidr, k: nat, address: nat)
    requires Canonical(pod)
    ensures k < Size(pod) ==> IndexInRange(pod, AddressByIndex(pod, k)) == (true, k)
    ensures In(address, pod) ==>
              var r := IndexInRange(pod, address); r.0 && 0 <= r.1 < Size(pod) && AddressByIndex(pod, r.1) == address
    ensures !In(address, pod) ==> IndexInRange(pod, address) == (false, -1)
  {
    if k < Size(pod) {
      AddressIsSum(pod, k);
      ContainsIsIn(pod, pod.base + k);
    }
    ContainsIsIn(pod, address);
    if In(address, pod) { AddressIsSum(pod, address - pod.base); }
  }
}
