/** internal/adaptiveroute: the operator's never-route list. */
module ExclusionList {
  import opened Wrappers
  import opened Text
  import Bits
  import opened Blocks
  import opened DottedQuad
  import opened Subsequence

  const MAX_EXCLUSIONS: nat := 512
  const MIN_EXCLUSION_PREFIX: nat := 8

  // ---- addresses and blocks against the list ----

  /** `net.IPNet.Contains`: compare the network parts of both. */
  predicate NetContains(n: Cidr, ip: nat)
    requires ip < SPACE
  {
    Bits.And(n.base, Mask(n.bits)) == Bits.And(ip, Mask(n.bits))
  }

  lemma {:induction false} NetContainsIsHas(n: Cidr, ip: nat)
    requires ip < SPACE
    ensures NetContains(n, ip) <==> Has(n, ip)
  {
    var o := BlockOf(ip, n.bits);
    BlockOfItself(n);
    if Has(n, ip) {
      Laminar(n, o);
      InsideBits(o, n);
    }
  }

  /** A string that is not a bare address is never contained. */
  method Contains(nets: seq<Cidr>, ip: string) returns (r: bool)
    ensures r <==> '/' !in ip && ParseQuad(ip).Some? && Covers(nets, ParseQuad(ip).value)
  {
    if |nets| == 0 || '/' in ip || ParseQuad(ip).None? {
      return false;
    }
    var p := ParseQuad(ip).value;
    for i := 0 to |nets|
      invariant forall j :: 0 <= j < i ==> !Has(nets[j], p)
    {
      NetContainsIsHas(nets[i], p);
      if NetContains(nets[i], p) {
        return true;
      }
    }
    return false;
  }

  ghost predicate SharesAddress(nets: seq<Cidr>, q: Cidr) {
    exists x :: Has(q, x) && Covers(nets, x)
  }

  lemma {:induction false} SharesIfMeets(nets: seq<Cidr>, i: nat, q: Cidr)
    requires i < |nets| && Meet(nets[i], q)
    ensures SharesAddress(nets, q)
  {
    var x := if nets[i].base < q.base then q.base else nets[i].base;
    assert Has(q, x) && Has(nets[i], x);
  }

  lemma {:induction false} SharesNothing(nets: seq<Cidr>, q: Cidr)
    requires forall i :: 0 <= i < |nets| ==> !Meet(nets[i], q)
    ensures !SharesAddress(nets, q)
  {
    forall x | Has(q, x) ensures !Covers(nets, x) {
      forall i | 0 <= i < |nets| ensures !Has(nets[i], x) {
        assert !Meet(nets[i], q);
      }
    }
  }

  /** The candidate denotes a network that shares an address with the list. */
  ghost predicate Excluded(nets: seq<Cidr>, cand: string) {
    ParseEntry(cand).Some? && SharesAddress(nets, ParseEntry(cand).value)
  }

  method OverlapsNet(nets: seq<Cidr>, cand: Cidr) returns (r: bool)
    ensures r <==> SharesAddress(nets, cand)
  {
    for i := 0 to |nets|
      invariant forall j :: 0 <= j < i ==> !Meet(nets[j], cand)
    {
      NetContainsIsHas(nets[i], cand.base);
      NetContainsIsHas(cand, nets[i].base);
      if NetContains(nets[i], cand.base) || NetContains(cand, nets[i].base) {
        SharesIfMeets(nets, i, cand);
        return true;
      }
    }
    SharesNothing(nets, cand);
    return false;
  }

  /** `Overlaps`: the list and the candidate share an address, found out by
      comparing base addresses only. */
  method Overlaps(nets: seq<Cidr>, cidr: string) returns (r: bool)
    ensures r <==> Excluded(nets, cidr)
  {
    var cand := ParseEntry(cidr);
    if |nets| == 0 || cand.None? {
      if cand.Some? { SharesNothing(nets, cand.value); }
      return false;
    }
    r := OverlapsNet(nets, cand.value);
  }

  /** Which members overlap the list. */
  ghost function Hits(nets: seq<Cidr>, members: seq<string>): (hits: seq<bool>)
    ensures |hits| == |members|
  {
    if members == [] then []
    else Hits(nets, members[..|members| - 1]) + [Excluded(nets, members[|members| - 1])]
  }

  lemma {:induction false} HitAt(nets: seq<Cidr>, members: seq<string>, i: nat)
    requires i < |members|
    ensures Hits(nets, members)[i] == Excluded(nets, members[i])
    decreases |members|
  {
    if i < |members| - 1 { HitAt(nets, members[..|members| - 1], i); }
  }

  /** The members that are hit and whose removal works, in order. */
  ghost function Taken(members: seq<string>, hits: seq<bool>, removes: seq<bool>): seq<string>
    requires |hits| == |removes| == |members|
  {
    if members == [] then []
    else
      var n := |members| - 1;
      var front := Taken(members[..n], hits[..n], removes[..n]);
      if hits[n] && removes[n] then front + [members[n]] else front
  }

  lemma {:induction false} TakenStep(members: seq<string>, hits: seq<bool>, removes: seq<bool>, i: nat)
    requires |hits| == |removes| == |members| && i < |members|
    ensures var front := Taken(members[..i], hits[..i], removes[..i]);
            Taken(members[..i + 1], hits[..i + 1], removes[..i + 1])
              == if hits[i] && removes[i] then front + [members[i]] else front
  {
    assert members[..i + 1][..i] == members[..i];
    assert hits[..i + 1][..i] == hits[..i] && removes[..i + 1][..i] == removes[..i];
  }

  /** Exactly the members that are hit and whose removal works, each in its place. */
  lemma {:induction false} TakenPicks(members: seq<string>, hits: seq<bool>, removes: seq<bool>)
    requires |hits| == |removes| == |members|
    ensures Picks(Taken(members, hits, removes), members, set i | 0 <= i < |members| && hits[i] && removes[i])
  {
    var taken := set i | 0 <= i < |members| && hits[i] && removes[i];
    var f := (n: nat) => if n <= |members| then Taken(members[..n], hits[..n], removes[..n]) else [];
    forall k: nat | k < |members| ensures PickStep(f, members, taken, k) { TakenStep(members, hits, removes, k); }
    PicksBySteps(f, members, taken);
    assert members[..|members|] == members && hits[..|members|] == hits && removes[..|members|] == removes;
  }

  lemma {:induction false} SweptIs(nets: seq<Cidr>, members: seq<string>, removes: seq<bool>)
    requires |removes| == |members|
    ensures Picks(Taken(members, Hits(nets, members), removes), members,
                  set i | 0 <= i < |members| && Excluded(nets, members[i]) && removes[i])
    ensures var hits := Hits(nets, members);
            (forall i :: 0 <= i < |members| && hits[i] ==> removes[i])
            <==> forall i :: 0 <= i < |members| && Excluded(nets, members[i]) ==> removes[i]
  {
    var hits := Hits(nets, members);
    TakenPicks(members, hits, removes);
    forall i: nat | i < |members| ensures hits[i] == Excluded(nets, members[i]) { HitAt(nets, members, i); }
    assert (set i | 0 <= i < |members| && Excluded(nets, members[i]) && removes[i])
        == (set i | 0 <= i < |members| && hits[i] && removes[i]);
  }

  method TestMember(nets: seq<Cidr>, members: seq<string>, i: nat, ghost hits: seq<bool>) returns (hit: bool)
    requires i < |members| && hits == Hits(nets, members)
    ensures hit == hits[i]
  {
    HitAt(nets, members, i);
    hit := Overlaps(nets, members[i]);
  }

  /** The loop over the members; `removes[i]` is whether taking out members[i] succeeds. */
  method SweepMembers(nets: seq<Cidr>, members: seq<string>, removes: seq<bool>)
    returns (removed: seq<string>, failed: bool)
    requires |removes| == |members|
    ensures removed == Taken(members, Hits(nets, members), removes)
    ensures !failed <==> forall i :: 0 <= i < |members| && Hits(nets, members)[i] ==> removes[i]
  {
    removed, failed := [], false;
    ghost var hits := Hits(nets, members);
    for i := 0 to |members|
      invariant removed == Taken(members[..i], hits[..i], removes[..i])
      invariant !failed <==> forall j :: 0 <= j < i && hits[j] ==> removes[j]
    {
      TakenStep(members, hits, removes, i);
      var hit := TestMember(nets, members, i, hits);
      if !hit {
        continue;
      }
      if !removes[i] {
        failed := true;
        continue;
      }
      removed := removed + [members[i]];
    }
    assert members[..|members|] == members && removes[..|members|] == removes && hits[..|members|] == hits;
  }

  /** `SweepExcluded` over the members of the redirect set: those that share an
      address with the list are taken out, in order; a failure is passed over. */
  method SweepExcluded(nets: seq<Cidr>, members: seq<string>, removes: seq<bool>)
    returns (removed: seq<string>, failed: bool)
    requires |removes| == |members|
    ensures removed == Taken(members, Hits(nets, members), removes)
    ensures Picks(removed, members, set i | 0 <= i < |members| && Excluded(nets, members[i]) && removes[i])
    ensures !failed <==> forall i :: 0 <= i < |members| && Excluded(nets, members[i]) ==> removes[i]
  {
    SweptIs(nets, members, removes);
    if |nets| == 0 {
      NothingHit(nets, members);
      NothingTaken(members, Hits(nets, members), removes);
      return [], false;
    }
    removed, failed := SweepMembers(nets, members, removes);
  }

  lemma {:induction false} NothingHit(nets: seq<Cidr>, members: seq<string>)
    requires nets == []
    ensures forall i :: 0 <= i < |members| ==> !Hits(nets, members)[i]
    decreases |members|
  {
    if members != [] {
      NothingHit(nets, members[..|members| - 1]);
      var last := ParseEntry(members[|members| - 1]);
      if last.Some? { SharesNothing(nets, last.value); }
    }
  }

  lemma {:induction false} NothingTaken(members: seq<string>, hits: seq<bool>, removes: seq<bool>)
    requires |hits| == |removes| == |members| && forall i :: 0 <= i < |hits| ==> !hits[i]
    ensures Taken(members, hits, removes) == []
    decreases |members|
  {
    if members != [] {
      var n := |members| - 1;
      NothingTaken(members[..n], hits[..n], removes[..n]);
    }
  }

  lemma {:induction false} TakenAll(members: seq<string>, hits: seq<bool>, removes: seq<bool>, m: string)
    requires |hits| == |removes| == |members| && forall i :: 0 <= i < |removes| ==> removes[i]
    ensures m in Taken(members, hits, removes) <==> exists i :: 0 <= i < |members| && members[i] == m && hits[i]
    decreases |members|
  {
    if members != [] {
      var n := |members| - 1;
      TakenAll(members[..n], hits[..n], removes[..n], m);
      if exists i :: 0 <= i < n && members[i] == m && hits[i] {
        var i :| 0 <= i < n && members[i] == m && hits[i];
        assert members[..n][i] == m && hits[..n][i];
      }
    }
  }

  /** When all removals work, exactly the overlapping members are taken. */
  lemma {:induction false} TakenExactly(nets: seq<Cidr>, members: seq<string>, removes: seq<bool>, m: string)
    requires |removes| == |members| && forall i :: 0 <= i < |removes| ==> removes[i]
    ensures m in Taken(members, Hits(nets, members), removes) <==> m in members && Excluded(nets, m)
  {
    var hits := Hits(nets, members);
    TakenAll(members, hits, removes, m);
    forall i: nat | i < |members| ensures hits[i] == Excluded(nets, members[i]) { HitAt(nets, members, i); }
    if m in members && Excluded(nets, m) {
      var i: nat :| i < |members| && members[i] == m;
      assert hits[i];
    }
  }

  /** After a sweep whose removals all succeed, no address of any member that is
      left is excluded, and what is gone did overlap the list. */
  lemma {:induction false} SweepLeavesNothingExcluded(nets: seq<Cidr>, members: seq<string>, removes: seq<bool>,
                                                      m: string)
    requires |removes| == |members| && forall i :: 0 <= i < |removes| ==> removes[i]
    requires m in members && ParseEntry(m).Some?
    ensures var taken := Taken(members, Hits(nets, members), removes);
            m in taken <==> exists x :: Has(ParseEntry(m).value, x) && Covers(nets, x)
  {
    TakenExactly(nets, members, removes, m);
  }
}
