// Exclude CIDRs: the check of a block against them (internal/compute) and their
// hand-over to the pools of the blocks they lie in (controllers/ippool_handler).
module Excludes {
  import opened Powers
  import opened Blocks
  import opened Compute
  import opened Sorting

  ghost predicate AllCanonical(excludes: seq<Cidr>)
  {
    forall k :: 0 <= k < |excludes| ==> Canonical(excludes[k])
  }

  predicate Prefixes(excludes: seq<Cidr>)
  {
    forall k :: 0 <= k < |excludes| ==> excludes[k].len <= 32
  }

  // What CheckIfTabuIndex tests, for an existing block.
  predicate Tabu(c: Cidr, b: nat, i: nat, excludes: seq<Cidr>)
    requires c.len + b <= 32 && Prefixes(excludes)
  {
    exists k :: 0 <= k < |excludes| && excludes[k].len <= c.len + b && Contains(excludes[k], Block(c, b, i).base)
  }

  method CheckIfTabuIndex(c: Cidr, index: nat, blocksize: nat, excludes: seq<Cidr>) returns (tabu: bool)
    requires Canonical(c) && c.len + blocksize <= 32 && Prefixes(excludes)
    ensures index < Pow2(blocksize) ==> (tabu <==> Tabu(c, blocksize, index, excludes))
    ensures index >= Pow2(blocksize) ==>
              (tabu <==> exists k :: 0 <= k < |excludes| && excludes[k].len <= c.len + blocksize && Contains(excludes[k], 0))
  {
    for k := 0 to |excludes|
      invariant index < Pow2(blocksize) ==>
          forall j :: 0 <= j < k ==> !(excludes[j].len <= c.len + blocksize && Contains(excludes[j], Block(c, blocksize, index).base))
      invariant index >= Pow2(blocksize) ==>
          forall j :: 0 <= j < k ==> !(excludes[j].len <= c.len + blocksize && Contains(excludes[j], 0))
    {
      if excludes[k].len <= c.len + blocksize {
        var net := ComputeBlock(c, index, blocksize);
        var address := if net.Some? then net.value.base else 0;
        if Contains(excludes[k], address) { return true; }
      }
    }
    return false;
  }

  lemma ShorterIsLarger(c: Cidr, d: Cidr)
    requires c.len <= 32 && d.len <= 32 && Size(c) <= Size(d)
    ensures d.len <= c.len
  {
    if c.len < d.len {
      Pow2Mono(32 - d.len, 32 - c.len - 1);
    }
  }

  // The test is true exactly when one exclude covers the whole block.
  lemma TabuIffCovered(c: Cidr, b: nat, i: nat, excludes: seq<Cidr>)
    requires Canonical(c) && c.len + b <= 32 && i < Pow2(b) && AllCanonical(excludes)
    ensures Tabu(c, b, i, excludes) <==>
            exists k :: 0 <= k < |excludes| && Inside(Block(c, b, i), excludes[k])
  {
    BlockInside(c, b, i);
    var block := Block(c, b, i);
    forall k | 0 <= k < |excludes|
      ensures excludes[k].len <= c.len + b && Contains(excludes[k], block.base) <==> Inside(block, excludes[k])
    {
      CoveredIffContained(block, excludes[k]);
    }
  }

  lemma CoveredIffContained(block: Cidr, e: Cidr)
    requires Canonical(block) && Canonical(e)
    ensures e.len <= block.len && Contains(e, block.base) <==> Inside(block, e)
  {
    if e.len <= block.len { NestedOrDisjoint(e, block); }
    if Inside(block, e) { ShorterIsLarger(block, e); }
  }

  // SortAddress, on the network addresses.
  function SortAddress(excludes: seq<Cidr>): (r: seq<Cidr>)
    ensures |r| == |excludes| && multiset(r) == multiset(excludes)
    ensures forall e :: e in r <==> e in excludes
    ensures SortedBy((e: Cidr) => e.base, r)
    ensures Prefixes(excludes) ==> Prefixes(r)
    ensures AllCanonical(excludes) ==> AllCanonical(r)
  {
    SortBySorted((e: Cidr) => e.base, excludes);
    SameElements(SortBy((e: Cidr) => e.base, excludes), excludes);
    var r := SortBy((e: Cidr) => e.base, excludes);
    assert forall k :: 0 <= k < |r| ==> r[k] in excludes;
    r
  }

  // The order of the excludes does not matter.
  lemma TabuOrderFree(c: Cidr, b: nat, i: nat, excludes: seq<Cidr>, other: seq<Cidr>)
    requires c.len + b <= 32 && Prefixes(excludes) && Prefixes(other)
    requires forall e :: e in excludes <==> e in other
    ensures Tabu(c, b, i, excludes) <==> Tabu(c, b, i, other)
  {
    if Tabu(c, b, i, excludes) {
      var k :| 0 <= k < |excludes| && excludes[k].len <= c.len + b && Contains(excludes[k], Block(c, b, i).base);
      assert excludes[k] in other;
    }
    if Tabu(c, b, i, other) {
      var k :| 0 <= k < |other| && other[k].len <= c.len + b && Contains(other[k], Block(c, b, i).base);
      assert other[k] in excludes;
    }
  }

  // ---------- Hand-over to the pools ----------

  function Matching(excludes: seq<Cidr>, pod: Cidr): seq<Cidr>
    requires pod.len <= 32
  {
    if excludes == [] then []
    else
      var e := excludes[|excludes| - 1];
      Matching(excludes[..|excludes| - 1], pod) +
      if pod.len < e.len && Contains(pod, e.base) then [e] else []
  }

  method ExtractMatchExcludes(excludes: seq<Cidr>, pod: Cidr) returns (r: seq<Cidr>)
    requires pod.len <= 32
    ensures r == Matching(excludes, pod)
  {
    r := [];
    for i := 0 to |excludes|
      invariant r == Matching(excludes[..i], pod)
    {
      assert excludes[..i + 1][..i] == excludes[..i];
      var e := excludes[i];
      if pod.len >= e.len { continue; }
      if Contains(pod, e.base) { r := r + [e]; }
    }
    assert excludes[..|excludes|] == excludes;
  }

  ghost predicate StrictlyInside(e: Cidr, pod: Cidr)
    requires e.len <= 32 && pod.len <= 32
  {
    Inside(e, pod) && pod.len < e.len
  }

  // A pool receives exactly the excludes that lie strictly inside its block, each as
  // often as it is listed.
  lemma {:induction false} MatchingExactly(excludes: seq<Cidr>, pod: Cidr, e: Cidr)
    requires Canonical(pod) && AllCanonical(excludes) && Canonical(e)
    ensures e in Matching(excludes, pod) <==> e in excludes && StrictlyInside(e, pod)
    ensures multiset(Matching(excludes, pod))[e] == if StrictlyInside(e, pod) then multiset(excludes)[e] else 0
  {
    if excludes != [] {
      var init, last := excludes[..|excludes| - 1], excludes[|excludes| - 1];
      assert excludes == init + [last];
      MatchingExactly(init, pod, e);
      assert AllCanonical([last]);
      CoveredIffContained(last, pod);
    }
  }

  // An exclude that does not cover a block misses it or is handed to its pool.
  lemma ExcludeMissesOrIsHandedOver(c: Cidr, b: nat, i: nat, excludes: seq<Cidr>, sorted: seq<Cidr>, e: Cidr)
    requires Canonical(c) && c.len + b <= 32 && i < Pow2(b) && AllCanonical(excludes)
    requires sorted == SortAddress(excludes) && e in excludes
    requires !Tabu(c, b, i, excludes)
    ensures var pod := Block(c, b, i);
      Canonical(pod) && Canonical(e) && (Disjoint(e, pod) || (StrictlyInside(e, pod) && e in Matching(sorted, pod)))
  {
    var pod := Block(c, b, i);
    BlockInside(c, b, i);
    var k :| 0 <= k < |excludes| && excludes[k] == e;
    TabuIffCovered(c, b, i, excludes);
    MatchingExactly(sorted, pod, e);
    if e.len <= pod.len {
      NestedOrDisjoint(e, pod);
    } else {
      NestedOrDisjoint(pod, e);
    }
  }
}
