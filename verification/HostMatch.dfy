/** cmd/keenetic-xray: whether a host name is covered by a set of domains. */
module HostMatch {
  import opened Text

  /** host is d itself or a subdomain of it. */
  ghost predicate CoveredBy(host: string, d: string) {
    host == d || (|d| < |host| && host[|host| - |d|..] == d && host[|host| - |d| - 1] == '.')
  }

  function Labels(host: string): nat {
    |Split(host, '.')|
  }

  lemma {:induction false} ParentCovered(host: string, i: nat, d: string)
    requires i < |host| && '.' !in host[..i] && host[i] == '.'
    requires CoveredBy(host, d) && host != d
    ensures CoveredBy(host[i + 1..], d)
  {
    var cut := |host| - |d|;
    assert host[cut - 1] == '.' && forall j :: 0 <= j < i ==> host[..i][j] == host[j];
    assert host[i + 1..][cut - (i + 1)..] == host[cut..];
  }

  lemma {:induction false} ParentCovers(host: string, i: nat, d: string)
    requires i < |host| && host[i] == '.' && CoveredBy(host[i + 1..], d)
    ensures CoveredBy(host, d)
  {
    var rest := host[i + 1..];
    assert host[|host| - |d|..] == rest[|rest| - |d|..];
  }

  /** Dropping the first label keeps every covering domain but the host itself. */
  lemma {:induction false} DropLabel(host: string, d: string)
    requires '.' in host
    ensures CoveredBy(host, d) <==> host == d || CoveredBy(host[IndexOf(host, '.') + 1..], d)
  {
    var i := IndexOf(host, '.');
    if CoveredBy(host, d) && host != d { ParentCovered(host, i, d); }
    if CoveredBy(host[i + 1..], d) { ParentCovers(host, i, d); }
  }

  lemma {:induction false} LastLabel(host: string, d: string)
    requires '.' !in host
    ensures CoveredBy(host, d) <==> host == d
  {
  }

  /** `matches`: look the host up, then its parent, and so on. At most one
      lookup is made per label. */
  method Matches(domains: set<string>, host: string) returns (covered: bool, lookups: nat)
    ensures covered <==> exists d :: d in domains && CoveredBy(host, d)
    ensures lookups <= Labels(host)
  {
    lookups := 0;
    if |domains| == 0 {
      return false, 0;
    }
    var h := host;
    while true
      invariant forall d :: d in domains ==> (CoveredBy(host, d) <==> CoveredBy(h, d))
      invariant lookups + Labels(h) == Labels(host)
      decreases |h|
    {
      lookups := lookups + 1;
      if h in domains {
        assert CoveredBy(h, h);
        return true, lookups;
      }
      var i := IndexOf(h, '.');
      if i == |h| {
        forall d | d in domains ensures !CoveredBy(host, d) { LastLabel(h, d); }
        return false, lookups;
      }
      forall d | d in domains ensures CoveredBy(host, d) <==> CoveredBy(h[i + 1..], d) { DropLabel(h, d); }
      h := h[i + 1..];
    }
  }
}
