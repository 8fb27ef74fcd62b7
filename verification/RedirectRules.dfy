/** internal/adaptiveroute: the iptables rules that redirect promoted TCP
    traffic and reject QUIC, and how EnsureRedirect converges on them. A rule is
    the line `iptables -S` lists for it. */
module RedirectRules {
  import opened Decimal
  import opened Subsequence
  import opened Substring
  import opened Text

  const COMMENT := "keenetic-xray-adaptive"

  datatype Options = Options(setName: string, port: int, interfaces: seq<string>)

  predicate Valid(o: Options) {
    o.setName != "" && 0 < o.port <= 65535 && o.interfaces != []
  }

  /** nat/PREROUTING and filter/FORWARD. */
  datatype Chain = Prerouting | Forward {
    function Name(): string {
      if this.Prerouting? then "PREROUTING" else "FORWARD"
    }
  }

  // ---- the rules wanted ----

  function Matching(o: Options, iface: string, proto: string, port: string): (spec: seq<string>)
    ensures |spec| == 11
  {
    ["-i", iface, "-p", proto, "-m", "set", "--match-set", o.setName, "dst", "--dport", port]
  }

  function Marking(withComment: bool): seq<string> {
    if withComment then ["-m", "comment", "--comment", COMMENT] else []
  }

  function Port(i: nat): string {
    if i == 0 then FormatInt(80) else FormatInt(443)
  }

  function RedirectTarget(o: Options, withComment: bool): seq<string> {
    Marking(withComment) + ["-j", "REDIRECT", "--to-ports", FormatInt(o.port)]
  }

  function RejectTarget(withComment: bool): seq<string> {
    Marking(withComment) + ["-j", "REJECT", "--reject-with", "icmp-port-unreachable"]
  }

  function RedirectSpec(o: Options, iface: string, i: nat, withComment: bool): (spec: seq<string>)
    ensures |spec| >= 11
  {
    Matching(o, iface, "tcp", Port(i)) + RedirectTarget(o, withComment)
  }

  function RejectSpec(o: Options, iface: string, withComment: bool): (spec: seq<string>)
    ensures |spec| >= 11
  {
    Matching(o, iface, "udp", "443") + RejectTarget(withComment)
  }

  /** The words `iptables -S` lists: the protocol's own match is spelled out
      before the port. */
  function ListedWords(chain: Chain, spec: seq<string>): seq<string>
    requires |spec| >= 11
  {
    ["-A", chain.Name()] + spec[..9] + ["-m", spec[3]] + spec[9..]
  }

  function Listed(chain: Chain, spec: seq<string>): string
    requires |spec| >= 11
  {
    Join(ListedWords(chain, spec), ' ')
  }

  /** The redirect rules of the first n interfaces, in the order they are added. */
  function Redirects(o: Options, n: nat, withComment: bool): (lines: seq<string>)
    requires n <= |o.interfaces|
    ensures |lines| == 2 * n
  {
    if n == 0 then []
    else Redirects(o, n - 1, withComment) + RedirectPair(o, o.interfaces[n - 1], withComment)
  }

  function RedirectPair(o: Options, iface: string, withComment: bool): (lines: seq<string>)
    ensures |lines| == 2
    ensures forall i: nat :: i < 2 ==> lines[i] == Listed(Prerouting, RedirectSpec(o, iface, i, withComment))
  {
    [Listed(Prerouting, RedirectSpec(o, iface, 0, withComment)), Listed(Prerouting, RedirectSpec(o, iface, 1, withComment))]
  }

  function Rejects(o: Options, n: nat, withComment: bool): (lines: seq<string>)
    requires n <= |o.interfaces|
    ensures |lines| == n
  {
    if n == 0 then []
    else Rejects(o, n - 1, withComment) + [Listed(Forward, RejectSpec(o, o.interfaces[n - 1], withComment))]
  }

  /** The line of a redirect rule: traffic of that protocol and destination port
      from the interface to a member of the set goes to the local port. */
  function RedirectLine(o: Options, iface: string, proto: string, dport: string, withComment: bool): string {
    var comment := if withComment then ["-m", "comment", "--comment", "keenetic-xray-adaptive"] else [];
    Join(["-A", "PREROUTING", "-i", iface, "-p", proto, "-m", "set", "--match-set", o.setName, "dst", "-m", proto,
          "--dport", dport] + comment + ["-j", "REDIRECT", "--to-ports", FormatInt(o.port)], ' ')
  }

  /** The line of a reject rule, for QUIC from the interface to a member of the set. */
  function RejectLine(o: Options, iface: string, withComment: bool): string {
    var comment := if withComment then ["-m", "comment", "--comment", "keenetic-xray-adaptive"] else [];
    Join(["-A", "FORWARD", "-i", iface, "-p", "udp", "-m", "set", "--match-set", o.setName, "dst", "-m", "udp",
          "--dport", "443"] + comment + ["-j", "REJECT", "--reject-with", "icmp-port-unreachable"], ' ')
  }

  /** The i-th redirect: each interface has one for port 80, then one for port 443. */
  function RedirectOf(o: Options, i: nat, withComment: bool): string
    requires i / 2 < |o.interfaces|
  {
    RedirectLine(o, o.interfaces[i / 2], "tcp", if i % 2 == 0 then "80" else "443", withComment)
  }

  /** The foreign rules stay in front, then come two redirects for each interface. */
  ghost predicate RedirectsLast(table: seq<string>, foreign: seq<string>, o: Options, withComment: bool) {
    && |table| == |foreign| + 2 * |o.interfaces|
    && table[..|foreign|] == foreign
    && var ours := table[|foreign|..];
       forall i :: 0 <= i < |ours| ==> ours[i] == RedirectOf(o, i, withComment)
  }

  /** One reject for each interface in front of all foreign rules, the last
      interface's first. */
  ghost predicate RejectsFirst(table: seq<string>, foreign: seq<string>, o: Options, withComment: bool) {
    var n := |o.interfaces|;
    && |table| == n + |foreign|
    && table[n..] == foreign
    && forall k: nat :: k < n ==> table[n - 1 - k] == RejectLine(o, o.interfaces[k], withComment)
  }

  // ---- recognising our rules ----

  predicate IsOurRedirect(line: string) {
    Contains(line, COMMENT)
    || (Contains(line, "--match-set") && Contains(line, "-j REDIRECT") && Contains(line, "--to-ports"))
  }

  predicate IsOurReject(line: string) {
    Contains(line, COMMENT)
    || (Contains(line, "--match-set") && Contains(line, "-j REJECT") && Contains(line, "-p udp")
        && Contains(line, "--dport 443"))
  }

  predicate OurRedirect(line: string) {
    HasPrefix(line, "-A PREROUTING ") && IsOurRedirect(line)
  }

  predicate OurReject(line: string) {
    HasPrefix(line, "-A FORWARD ") && IsOurReject(line)
  }

  /** The rules that are not ours, in order. */
  function Foreign(ours: string -> bool, rules: seq<string>): (r: seq<string>)
    ensures forall line :: line in r ==> !ours(line)
  {
    if rules == [] then []
    else if ours(rules[0]) then Foreign(ours, rules[1..])
    else [rules[0]] + Foreign(ours, rules[1..])
  }

  // ---- the drift check ----

  predicate AnyLineHasAll(lines: seq<string>, prefix: string, wants: seq<string>) {
    exists line :: line in lines && HasPrefix(line, prefix) && forall w :: w in wants ==> Contains(line, w)
  }

  function RedirectWants(o: Options, iface: string, i: nat): seq<string> {
    ["-i " + iface + " ", "-p tcp ", "--match-set " + o.setName + " dst", "--dport " + Port(i), "-j REDIRECT",
     "--to-ports " + FormatInt(o.port)]
  }

  function RejectWants(o: Options, iface: string): seq<string> {
    ["-i " + iface + " ", "-p udp ", "--match-set " + o.setName + " dst", "--dport 443", "-j REJECT"]
  }

  predicate RejectInPlace(forward: seq<string>, o: Options) {
    && Valid(o)
    && RejectPresent(forward, o)
  }

  predicate RejectPresent(forward: seq<string>, o: Options) {
    forall iface :: iface in o.interfaces ==> AnyLineHasAll(forward, "-A FORWARD ", RejectWants(o, iface))
  }

  predicate RedirectPresent(rules: seq<string>, o: Options) {
    forall iface, i :: iface in o.interfaces && 0 <= i < 2
      ==> AnyLineHasAll(rules, "-A PREROUTING ", RedirectWants(o, iface, i))
  }

  /** A UDP redirect of ours: a leftover of older versions. */
  predicate RedirectUDP(line: string) {
    OurRedirect(line) && Contains(line, "-p udp")
  }

  /** RedirectInPlace, when both chains can be listed. */
  predicate InPlace(redirects: seq<string>, forward: seq<string>, rejectProblem: bool, o: Options) {
    && Valid(o)
    && RedirectPresent(redirects, o)
    && (forall line :: line in redirects ==> !RedirectUDP(line))
    && (rejectProblem || RejectInPlace(forward, o))
  }

  // ---- what the rules we add look like ----

  /** The words up to the port. */
  function Head(chain: Chain, o: Options, iface: string, proto: string, port: string): (words: seq<string>)
    ensures |words| == 15
  {
    ["-A", chain.Name(), "-i", iface, "-p", proto, "-m", "set", "--match-set", o.setName, "dst", "-m", proto, "--dport",
     port]
  }

  lemma {:induction false} ListedAs(chain: Chain, o: Options, iface: string, proto: string, port: string,
                                    rest: seq<string>)
    ensures ListedWords(chain, Matching(o, iface, proto, port) + rest) == Head(chain, o, iface, proto, port) + rest
  {
    var m := Matching(o, iface, proto, port);
    assert (m + rest)[..9] == m[..9] && (m + rest)[9..] == m[9..] + rest && (m + rest)[3] == proto;
    assert ["-A", chain.Name()] + m[..9] + ["-m", proto] + m[9..] == Head(chain, o, iface, proto, port);
  }

  lemma {:induction false} HeadHas(chain: Chain, o: Options, iface: string, proto: string, port: string,
                                   rest: seq<string>)
    requires rest != []
    ensures var line := Join(Head(chain, o, iface, proto, port) + rest, ' ');
            && HasPrefix(line, "-A " + chain.Name() + " ")
            && Contains(line, "-i " + iface + " ") && Contains(line, "-p " + proto + " ")
            && Contains(line, "--match-set " + o.setName + " dst") && Contains(line, "--dport " + port)
            && Contains(line, "--match-set")
  {
    var words := Head(chain, o, iface, proto, port) + rest;
    assert words[..2] == ["-A", chain.Name()];
    JoinFew("-A", chain.Name(), "");
    JoinStartsWith(words, 2, ' ');
    TwoWords(words, 2);
    TwoWords(words, 4);
    ThreeWords(words, 8);
    OneWord(words, 8);
    TwoWords(words, 13);
    assert "-A" + " " == "-A " && "-i" + " " == "-i " && "-p" + " " == "-p " && [' '] == " ";
    assert "--match-set" + " " == "--match-set " && " " + "dst" == " dst" && "--dport" + " " == "--dport ";
    assert "--match-set " + o.setName + " dst" == "--match-set " + o.setName + " " + "dst";
  }

  lemma {:induction false} TargetHas(head: seq<string>, withComment: bool, target: seq<string>)
    requires head != [] && |target| == 4
    ensures var line := Join(head + (Marking(withComment) + target), ' ');
            && Contains(line, target[0] + " " + target[1]) && Contains(line, target[2] + " " + target[3])
            && Contains(line, target[2]) && (withComment ==> Contains(line, COMMENT))
  {
    var words := head + (Marking(withComment) + target);
    var n := |words| - 4;
    TwoWords(words, n);
    TwoWords(words, n + 2);
    OneWord(words, n + 2);
    if withComment { OneWord(words, n - 1); }
  }

  lemma {:induction false} RedirectParts(line: string, o: Options, iface: string, i: nat)
    requires HasPrefix(line, "-A PREROUTING ") && Contains(line, "-i " + iface + " ") && Contains(line, "-p tcp ")
    requires Contains(line, "--match-set " + o.setName + " dst") && Contains(line, "--dport " + Port(i))
    requires Contains(line, "--match-set") && Contains(line, "-j REDIRECT") && Contains(line, "--to-ports")
    requires Contains(line, "--to-ports " + FormatInt(o.port))
    ensures OurRedirect(line) && forall w :: w in RedirectWants(o, iface, i) ==> Contains(line, w)
  {
  }

  lemma {:induction false} RedirectTargetHas(head: seq<string>, o: Options, withComment: bool)
    requires head != []
    ensures var line := Join(head + RedirectTarget(o, withComment), ' ');
            && Contains(line, "-j REDIRECT") && Contains(line, "--to-ports")
            && Contains(line, "--to-ports " + FormatInt(o.port))
  {
    TargetHas(head, withComment, ["-j", "REDIRECT", "--to-ports", FormatInt(o.port)]);
    assert "-j" + " " + "REDIRECT" == "-j REDIRECT" && "--to-ports" + " " == "--to-ports ";
  }

  lemma {:induction false} RedirectListed(o: Options, iface: string, i: nat, withComment: bool)
    requires i < 2
    ensures var line := Listed(Prerouting, RedirectSpec(o, iface, i, withComment));
            && OurRedirect(line)
            && forall w :: w in RedirectWants(o, iface, i) ==> Contains(line, w)
  {
    ListedAs(Prerouting, o, iface, "tcp", Port(i), RedirectTarget(o, withComment));
    HeadHas(Prerouting, o, iface, "tcp", Port(i), RedirectTarget(o, withComment));
    RedirectTargetHas(Head(Prerouting, o, iface, "tcp", Port(i)), o, withComment);
    assert "-A " + "PREROUTING" + " " == "-A PREROUTING " && "-p " + "tcp" + " " == "-p tcp ";
    RedirectParts(Listed(Prerouting, RedirectSpec(o, iface, i, withComment)), o, iface, i);
  }

  lemma {:induction false} RejectParts(line: string, o: Options, iface: string)
    requires HasPrefix(line, "-A FORWARD ") && Contains(line, "-i " + iface + " ") && Contains(line, "-p udp ")
    requires Contains(line, "--match-set " + o.setName + " dst") && Contains(line, "--dport 443")
    requires Contains(line, "--match-set") && Contains(line, "-j REJECT")
    ensures OurReject(line) && forall w :: w in RejectWants(o, iface) ==> Contains(line, w)
  {
    assert "" + "-p udp" + " " == "-p udp ";
    ContainsMiddle("", "-p udp", " ");
    ContainsTrans(line, "-p udp ", "-p udp");
  }

  lemma {:induction false} RejectListed(o: Options, iface: string, withComment: bool)
    ensures var line := Listed(Forward, RejectSpec(o, iface, withComment));
            && OurReject(line)
            && forall w :: w in RejectWants(o, iface) ==> Contains(line, w)
  {
    ListedAs(Forward, o, iface, "udp", "443", RejectTarget(withComment));
    HeadHas(Forward, o, iface, "udp", "443", RejectTarget(withComment));
    TargetHas(Head(Forward, o, iface, "udp", "443"), withComment, ["-j", "REJECT", "--reject-with", "icmp-port-unreachable"]);
    assert "-A " + "FORWARD" + " " == "-A FORWARD " && "-p " + "udp" + " " == "-p udp ";
    assert "-j" + " " + "REJECT" == "-j REJECT" && "--dport " + "443" == "--dport 443";
    RejectParts(Listed(Forward, RejectSpec(o, iface, withComment)), o, iface);
  }

  lemma {:induction false} PortText()
    ensures Port(0) == "80" && Port(1) == "443"
  {
    assert Digits(8) == "8" && Digits(4) == "4";
    assert Digits(44) == "44" && Digits(80) == "80";
  }

  lemma {:induction false} RedirectPrinted(o: Options, iface: string, i: nat, withComment: bool)
    requires i < 2
    ensures Listed(Prerouting, RedirectSpec(o, iface, i, withComment))
            == RedirectLine(o, iface, "tcp", if i == 0 then "80" else "443", withComment)
  {
    PortText();
    ListedAs(Prerouting, o, iface, "tcp", Port(i), RedirectTarget(o, withComment));
    var head := Head(Prerouting, o, iface, "tcp", Port(i));
    assert head + RedirectTarget(o, withComment)
        == head + Marking(withComment) + ["-j", "REDIRECT", "--to-ports", FormatInt(o.port)];
  }

  lemma {:induction false} RejectPrinted(o: Options, iface: string, withComment: bool)
    ensures Listed(Forward, RejectSpec(o, iface, withComment)) == RejectLine(o, iface, withComment)
  {
    ListedAs(Forward, o, iface, "udp", "443", RejectTarget(withComment));
    var head := Head(Forward, o, iface, "udp", "443");
    assert head + RejectTarget(withComment)
        == head + Marking(withComment) + ["-j", "REJECT", "--reject-with", "icmp-port-unreachable"];
  }

  lemma {:induction false} StartsWithChain(words: seq<string>, chain: string)
    requires |words| >= 3 && words[0] == "-A" && words[1] == chain
    ensures HasPrefix(Join(words, ' '), "-A " + chain + " ")
  {
    assert words[..2] == ["-A", chain];
    JoinFew("-A", chain, "");
    JoinStartsWith(words, 2, ' ');
    assert "-A" + " " == "-A " && [' '] == " ";
  }

  /** Every rule an older version may have left is recognised: whatever else the
      line says, it carries our comment, or matches a set and redirects to ports. */
  lemma {:induction false} OldRedirectsAreOurs(words: seq<string>, i: nat, j: nat, k: nat)
    requires |words| >= 3 && words[0] == "-A" && words[1] == "PREROUTING"
    requires i < |words| && j + 1 < |words| && k < |words|
    requires words[i] == "keenetic-xray-adaptive"
             || (words[i] == "--match-set" && words[j] == "-j" && words[j + 1] == "REDIRECT" && words[k] == "--to-ports")
    ensures OurRedirect(Join(words, ' '))
  {
    StartsWithChain(words, "PREROUTING");
    assert "-A " + "PREROUTING" + " " == "-A PREROUTING ";
    OneWord(words, i);
    if words[i] != "keenetic-xray-adaptive" {
      TwoWords(words, j);
      OneWord(words, k);
      assert "-j" + " " + "REDIRECT" == "-j REDIRECT";
    }
  }

  lemma {:induction false} OldRejectsAreOurs(words: seq<string>, i: nat, j: nat, k: nat, l: nat)
    requires |words| >= 3 && words[0] == "-A" && words[1] == "FORWARD"
    requires i < |words| && j + 1 < |words| && k + 1 < |words| && l + 1 < |words|
    requires || words[i] == "keenetic-xray-adaptive"
             || (&& words[i] == "--match-set" && words[j] == "-j" && words[j + 1] == "REJECT"
                 && words[k] == "-p" && words[k + 1] == "udp" && words[l] == "--dport" && words[l + 1] == "443")
    ensures OurReject(Join(words, ' '))
  {
    StartsWithChain(words, "FORWARD");
    assert "-A " + "FORWARD" + " " == "-A FORWARD ";
    OneWord(words, i);
    if words[i] != "keenetic-xray-adaptive" {
      TwoWords(words, j);
      TwoWords(words, k);
      TwoWords(words, l);
      assert "-j" + " " + "REJECT" == "-j REJECT" && "-p" + " " + "udp" == "-p udp";
      assert "--dport" + " " + "443" == "--dport 443";
    }
  }

  /** Rules of others are not: no word of theirs holds our comment, and they
      match no set or have another target. */
  lemma {:induction false} OthersAreForeign(words: seq<string>)
    requires forall w :: w in words ==> !Contains(w, "keenetic-xray-adaptive")
    requires || (forall w :: w in words ==> !Contains(w, "--match-set"))
             || (forall w :: w in words ==> !Contains(w, "REDIRECT") && !Contains(w, "REJECT"))
    ensures !OurRedirect(Join(words, ' ')) && !OurReject(Join(words, ' '))
  {
    NoWordHas(words, COMMENT, "", COMMENT);
    if forall w :: w in words ==> !Contains(w, "--match-set") {
      NoWordHas(words, "--match-set", "", "--match-set");
    } else {
      NoWordHas(words, "-j REDIRECT", "-j ", "REDIRECT");
      NoWordHas(words, "-j REJECT", "-j ", "REJECT");
    }
  }

  lemma {:induction false} NoWordHas(words: seq<string>, phrase: string, front: string, word: string)
    requires phrase == front + word && word != [] && ' ' !in word
    requires forall w :: w in words ==> !Contains(w, word)
    ensures !Contains(Join(words, ' '), phrase)
  {
    if Contains(Join(words, ' '), phrase) {
      assert OccursAt(phrase, word, |front|);
      ContainsTrans(Join(words, ' '), phrase, word);
      WordInJoin(words, word);
    }
  }

  /** The drift check, phrase by phrase. */
  lemma {:induction false} InPlaceMeans(redirects: seq<string>, forward: seq<string>, rejectProblem: bool, o: Options)
    ensures InPlace(redirects, forward, rejectProblem, o) <==>
              && o.setName != "" && 0 < o.port <= 65535 && o.interfaces != []
              && (forall iface, port :: iface in o.interfaces && port in {"80", "443"} ==>
                    AnyLineHasAll(redirects, "-A PREROUTING ",
                                  ["-i " + iface + " ", "-p tcp ", "--match-set " + o.setName + " dst", "--dport " + port,
                                   "-j REDIRECT", "--to-ports " + FormatInt(o.port)]))
              && (forall line :: line in redirects && OurRedirect(line) ==> !Contains(line, "-p udp"))
              && (rejectProblem || forall iface :: iface in o.interfaces ==>
                                     AnyLineHasAll(forward, "-A FORWARD ",
                                                   ["-i " + iface + " ", "-p udp ", "--match-set " + o.setName + " dst",
                                                    "--dport 443", "-j REJECT"]))
  {
    PortText();
    if RedirectPresent(redirects, o) {
      forall iface, port | iface in o.interfaces && port in {"80", "443"}
        ensures AnyLineHasAll(redirects, "-A PREROUTING ",
                              ["-i " + iface + " ", "-p tcp ", "--match-set " + o.setName + " dst", "--dport " + port,
                               "-j REDIRECT", "--to-ports " + FormatInt(o.port)])
      {
        var i := if port == "80" then 0 else 1;
        assert AnyLineHasAll(redirects, "-A PREROUTING ", RedirectWants(o, iface, i));
      }
    }
  }

  /** Some name makes every rule we add look like a UDP one. */
  predicate NamesUDP(o: Options) {
    Contains(o.setName, "-p udp") || exists iface :: iface in o.interfaces && Contains(iface, "-p udp")
  }

  predicate Inert(word: string) {
    ' ' !in word && !StartsWith(word, 'u')
  }

  lemma {:induction false} TargetIsInert(o: Options, withComment: bool)
    ensures forall w :: w in RedirectTarget(o, withComment) ==> Inert(w)
  {
    FormatIsPlain(o.port);
  }

  lemma {:induction false} WordsAreInert(o: Options, iface: string, i: nat, rest: seq<string>)
    requires forall w :: w in rest ==> Inert(w)
    ensures var words := Head(Prerouting, o, iface, "tcp", Port(i)) + rest;
            forall k: nat :: k < |words| && k != 3 && k != 9 ==> Inert(words[k])
  {
    var head := Head(Prerouting, o, iface, "tcp", Port(i));
    FormatIsPlain(80);
    FormatIsPlain(443);
    forall k: nat | k < |head + rest| && k != 3 && k != 9 ensures Inert((head + rest)[k]) {
      if k >= 15 { assert (head + rest)[k] == rest[k - 15]; }
    }
  }

  lemma {:induction false} SpacelessHoldsNoPhrase(word: string)
    requires ' ' !in word
    ensures !Contains(word, "-p udp")
  {
    forall i: nat | i + 6 <= |word| ensures !OccursAt(word, "-p udp", i) {
      assert word[i + 2] in word && word[i..i + 6][2] == word[i + 2];
    }
  }

  /** A redirect rule reads as UDP exactly when its interface or set name
      says so. */
  lemma {:induction false} RedirectIsTCP(o: Options, iface: string, i: nat, withComment: bool)
    requires i < 2
    ensures var line := Listed(Prerouting, RedirectSpec(o, iface, i, withComment));
            Contains(line, "-p udp") <==> (Contains(iface, "-p udp") || Contains(o.setName, "-p udp"))
  {
    var rest := RedirectTarget(o, withComment);
    var words := Head(Prerouting, o, iface, "tcp", Port(i)) + rest;
    ListedAs(Prerouting, o, iface, "tcp", Port(i), rest);
    TargetIsInert(o, withComment);
    WordsAreInert(o, iface, i, rest);
    assert words[2] == "-i" && words[3] == iface && words[8] == "--match-set" && words[9] == o.setName;
    UDPInWords(words);
  }

  lemma {:induction false} UDPInWords(words: seq<string>)
    requires |words| > 9 && words[2] == "-i" && words[8] == "--match-set"
    requires forall k: nat :: k < |words| && k != 3 && k != 9 ==> Inert(words[k])
    ensures Contains(Join(words, ' '), "-p udp") <==> (Contains(words[3], "-p udp") || Contains(words[9], "-p udp"))
  {
    if Contains(words[3], "-p udp") {
      OneWord(words, 3);
      ContainsTrans(Join(words, ' '), words[3], "-p udp");
    } else if Contains(words[9], "-p udp") {
      OneWord(words, 9);
      ContainsTrans(Join(words, ' '), words[9], "-p udp");
    } else {
      forall w | w in words ensures !Contains(w, "-p udp") {
        var k: nat :| k < |words| && words[k] == w;
        if k != 3 && k != 9 { SpacelessHoldsNoPhrase(w); }
      }
      assert !Meets(words, 'p', 'u') && "-p" + [' '] + "udp" == "-p udp";
      if Contains(Join(words, ' '), "-p udp") { PhraseInJoin(words, "-p", "udp"); }
    }
  }

  // ---- deleting and adding ----

  function RemoveFirst(rules: seq<string>, line: string): seq<string> {
    if rules == [] then []
    else if rules[0] == line then rules[1..]
    else [rules[0]] + RemoveFirst(rules[1..], line)
  }

  lemma {:induction false} ForeignCons(ours: string -> bool, line: string, rules: seq<string>)
    ensures Foreign(ours, [line] + rules) == (if ours(line) then [] else [line]) + Foreign(ours, rules)
  {
    assert ([line] + rules)[1..] == rules;
  }

  lemma {:induction false} ForeignConcat(ours: string -> bool, a: seq<string>, b: seq<string>)
    ensures Foreign(ours, a + b) == Foreign(ours, a) + Foreign(ours, b)
  {
    if a == [] {
      assert a + b == b;
    } else {
      ForeignConcat(ours, a[1..], b);
      assert a + b == [a[0]] + (a[1..] + b);
      ForeignCons(ours, a[0], a[1..] + b);
      ForeignCons(ours, a[0], a[1..]);
      assert a == [a[0]] + a[1..];
    }
  }

  lemma {:induction false} ForeignOfOurs(ours: string -> bool, lines: seq<string>)
    requires forall line :: line in lines ==> ours(line)
    ensures Foreign(ours, lines) == []
  {
    if lines != [] { ForeignOfOurs(ours, lines[1..]); }
  }

  lemma {:induction false} ForeignOfForeign(ours: string -> bool, lines: seq<string>)
    requires forall line :: line in lines ==> !ours(line)
    ensures Foreign(ours, lines) == lines
  {
    if lines != [] { ForeignOfForeign(ours, lines[1..]); }
  }

  lemma {:induction false} ForeignStep(ours: string -> bool, rules: seq<string>, k: nat)
    requires k < |rules|
    ensures Foreign(ours, rules[..k + 1])
         == if ours(rules[k]) then Foreign(ours, rules[..k]) else Foreign(ours, rules[..k]) + [rules[k]]
  {
    assert rules[..k + 1] == rules[..k] + [rules[k]] && [rules[k]] + [] == [rules[k]];
    ForeignConcat(ours, rules[..k], [rules[k]]);
    ForeignCons(ours, rules[k], []);
  }

  /** Every rule that is not ours stays, and in its place among the others. */
  lemma {:induction false} ForeignPicks(ours: string -> bool, rules: seq<string>)
    ensures Picks(Foreign(ours, rules), rules, set i | 0 <= i < |rules| && !ours(rules[i]))
  {
    var others := set i | 0 <= i < |rules| && !ours(rules[i]);
    var f := (n: nat) => if n <= |rules| then Foreign(ours, rules[..n]) else [];
    forall k: nat | k < |rules| ensures PickStep(f, rules, others, k) { ForeignStep(ours, rules, k); }
    PicksBySteps(f, rules, others);
    assert rules[..|rules|] == rules;
  }

  /** Deleting one of our rules disturbs nobody else's. */
  lemma {:induction false} ForeignAfterDelete(ours: string -> bool, rules: seq<string>, line: string)
    requires ours(line)
    ensures Foreign(ours, RemoveFirst(rules, line)) == Foreign(ours, rules)
  {
    if rules != [] && rules[0] != line {
      ForeignAfterDelete(ours, rules[1..], line);
      var rest := RemoveFirst(rules[1..], line);
      assert ([rules[0]] + rest)[1..] == rest;
    }
  }

  lemma {:induction false} RemoveFirstAt(a: seq<string>, line: string, b: seq<string>)
    requires line !in a
    ensures RemoveFirst(a + [line] + b, line) == a + b
  {
    if a == [] {
      assert a + [line] + b == [line] + b && a + b == b;
    } else {
      RemoveFirstAt(a[1..], line, b);
      assert (a + [line] + b)[1..] == a[1..] + [line] + b;
      assert [a[0]] + (a[1..] + b) == a + b;
    }
  }

  /** One turn of the deleting loop, when the deletion works. */
  lemma {:induction false} ClearStep(ours: string -> bool, rules: seq<string>, i: nat)
    requires i < |rules|
    ensures var left := Foreign(ours, rules[..i]) + rules[i..];
            var next := Foreign(ours, rules[..i + 1]) + rules[i + 1..];
            if ours(rules[i]) then RemoveFirst(left, rules[i]) == next else left == next
  {
    var before, line, after := rules[..i], rules[i], rules[i + 1..];
    assert rules[..i + 1] == before + [line] && rules[i..] == [line] + after;
    ForeignConcat(ours, before, [line]);
    assert Foreign(ours, before) + rules[i..] == Foreign(ours, before) + [line] + after;
    if ours(line) { RemoveFirstAt(Foreign(ours, before), line, after); }
  }

  // ---- what the kernel answers ----

  /** Whether the chain can be listed, and the deletion of the i-th listed rule works. */
  datatype Clearing = Clearing(listed: bool, deletes: nat -> bool)

  ghost predicate Works(c: Clearing) {
    c.listed && forall i: nat :: c.deletes(i)
  }

  /** Which rules are accepted with the comment match; what happens to the
      clearing before the second attempt; which rules are accepted there. */
  datatype Trial = Trial(commented: nat -> bool, between: Clearing, plain: nat -> bool)

  ghost predicate Takes(adds: nat -> bool, n: nat) {
    forall i: nat :: i < n ==> adds(i)
  }

  /** The first attempt works, or what it left is cleared. */
  ghost predicate Tidy(t: Trial, n: nat) {
    Takes(t.commented, n) || Works(t.between)
  }

  lemma {:induction false} RemoveFirstCount(rules: seq<string>, line: string)
    requires line in rules
    ensures multiset(RemoveFirst(rules, line)) == multiset(rules) - multiset{line}
  {
    assert rules == [rules[0]] + rules[1..];
    if rules[0] != line { RemoveFirstCount(rules[1..], line); }
  }

  /** How many of the first n listed copies of a line could not be deleted. */
  ghost function Stuck(rules: seq<string>, deletes: nat -> bool, line: string, n: nat): nat
    requires n <= |rules|
  {
    |set i: nat | i < n && rules[i] == line && !deletes(i)|
  }

  lemma {:induction false} StuckStep(rules: seq<string>, deletes: nat -> bool, line: string, n: nat)
    requires n < |rules|
    ensures Stuck(rules, deletes, line, n + 1)
            == Stuck(rules, deletes, line, n) + if rules[n] == line && !deletes(n) then 1 else 0
  {
    var before := set i: nat | i < n && rules[i] == line && !deletes(i);
    var after := set i: nat | i < n + 1 && rules[i] == line && !deletes(i);
    assert after == if rules[n] == line && !deletes(n) then before + {n} else before;
  }

  /** Of our rules the table holds those not yet tried and those that are stuck. */
  ghost predicate Left(ours: string -> bool, rules: seq<string>, deletes: nat -> bool, n: nat, left: seq<string>)
    requires n <= |rules|
  {
    forall line :: ours(line) ==> multiset(left)[line] == Stuck(rules, deletes, line, n) + multiset(rules[n..])[line]
  }

  lemma {:induction false} LeftStep(ours: string -> bool, rules: seq<string>, deletes: nat -> bool, n: nat, left: seq<string>)
    requires n < |rules| && Left(ours, rules, deletes, n, left)
    ensures Left(ours, rules, deletes, n + 1,
                 if ours(rules[n]) && deletes(n) then RemoveFirst(left, rules[n]) else left)
  {
    var next := if ours(rules[n]) && deletes(n) then RemoveFirst(left, rules[n]) else left;
    assert rules[n..] == [rules[n]] + rules[n + 1..];
    if ours(rules[n]) && deletes(n) {
      assert multiset(left)[rules[n]] > 0;
      RemoveFirstCount(left, rules[n]);
    }
    forall line | ours(line)
      ensures multiset(next)[line] == Stuck(rules, deletes, line, n + 1) + multiset(rules[n + 1..])[line]
    {
      StuckStep(rules, deletes, line, n);
    }
  }

  /** clearOurRedirectRules and clearOurRejectRules: list the chain, then
      delete each listed rule that is ours; a deletion that fails is passed over. */
  method ClearOurs(ours: string -> bool, rules: seq<string>, c: Clearing) returns (left: seq<string>)
    ensures Foreign(ours, left) == Foreign(ours, rules)
    ensures Works(c) ==> left == Foreign(ours, rules)
    ensures Works(c) ==> Picks(left, rules, set i | 0 <= i < |rules| && !ours(rules[i]))
    ensures !c.listed ==> left == rules
    ensures c.listed ==> forall line :: ours(line) ==>
                           multiset(left)[line] == |set i: nat | i < |rules| && rules[i] == line && !c.deletes(i)|
  {
    left := rules;
    if !c.listed {
      return;
    }
    assert rules[0..] == rules;
    for i := 0 to |rules|
      invariant Foreign(ours, left) == Foreign(ours, rules)
      invariant Works(c) ==> left == Foreign(ours, rules[..i]) + rules[i..]
      invariant Left(ours, rules, c.deletes, i, left)
    {
      ClearStep(ours, rules, i);
      LeftStep(ours, rules, c.deletes, i, left);
      if ours(rules[i]) && c.deletes(i) {
        ForeignAfterDelete(ours, left, rules[i]);
        left := RemoveFirst(left, rules[i]);
      }
    }
    assert rules[..|rules|] == rules;
    ForeignPicks(ours, rules);
  }

  /** The loop over the ports. */
  method RulesForInterface(o: Options, iface: string, withComment: bool) returns (lines: seq<string>)
    ensures lines == RedirectPair(o, iface, withComment)
  {
    lines := [];
    for i := 0 to 2
      invariant |lines| == i
      invariant forall j: nat :: j < i ==> lines[j] == Listed(Prerouting, RedirectSpec(o, iface, j, withComment))
    {
      lines := lines + [Listed(Prerouting, RedirectSpec(o, iface, i, withComment))];
    }
  }

  method RedirectRulesFor(o: Options, withComment: bool) returns (lines: seq<string>)
    ensures lines == Redirects(o, |o.interfaces|, withComment)
  {
    lines := [];
    for k := 0 to |o.interfaces|
      invariant lines == Redirects(o, k, withComment)
    {
      var pair := RulesForInterface(o, o.interfaces[k], withComment);
      lines := lines + pair;
    }
  }

  method RejectRulesFor(o: Options, withComment: bool) returns (lines: seq<string>)
    ensures lines == Rejects(o, |o.interfaces|, withComment)
  {
    lines := [];
    for k := 0 to |o.interfaces|
      invariant lines == Rejects(o, k, withComment)
    {
      lines := lines + [Listed(Forward, RejectSpec(o, o.interfaces[k], withComment))];
    }
  }

  /** Rules appended one by one until one is refused. */
  method AppendRules(rules: seq<string>, lines: seq<string>, adds: nat -> bool) returns (r: seq<string>, ok: bool)
    ensures ok <==> Takes(adds, |lines|)
    ensures ok ==> r == rules + lines
    ensures exists n: nat | n <= |lines| :: Takes(adds, n) && (ok || (n < |lines| && !adds(n))) && r == rules + lines[..n]
  {
    r := rules;
    for i := 0 to |lines|
      invariant r == rules + lines[..i] && Takes(adds, i)
    {
      if !adds(i) {
        return r, false;
      }
      assert lines[..i + 1] == lines[..i] + [lines[i]];
      r := r + [lines[i]];
    }
    assert lines[..|lines|] == lines;
    ok := true;
  }

  /** Each line inserted at position 1, so the last one ends up first. */
  function Inserted(rules: seq<string>, lines: seq<string>): (r: seq<string>)
    ensures |r| == |lines| + |rules| && r[|lines|..] == rules
    ensures forall i :: 0 <= i < |lines| ==> r[i] == lines[|lines| - 1 - i]
  {
    if lines == [] then rules else [lines[|lines| - 1]] + Inserted(rules, lines[..|lines| - 1])
  }

  method InsertRules(rules: seq<string>, lines: seq<string>, adds: nat -> bool) returns (r: seq<string>, ok: bool)
    ensures ok <==> Takes(adds, |lines|)
    ensures ok ==> r == Inserted(rules, lines)
    ensures exists n: nat | n <= |lines| ::
              Takes(adds, n) && (ok || (n < |lines| && !adds(n))) && r == Inserted(rules, lines[..n])
  {
    r := rules;
    for i := 0 to |lines|
      invariant r == Inserted(rules, lines[..i]) && Takes(adds, i)
    {
      if !adds(i) {
        return r, false;
      }
      assert lines[..i + 1][..i] == lines[..i];
      r := [lines[i]] + r;
    }
    assert lines[..|lines|] == lines;
    ok := true;
  }

  lemma {:induction false} InsertedHas(rules: seq<string>, lines: seq<string>)
    ensures forall line :: line in Inserted(rules, lines) <==> line in rules || line in lines
  {
    if lines != [] {
      InsertedHas(rules, lines[..|lines| - 1]);
      assert lines == lines[..|lines| - 1] + [lines[|lines| - 1]];
    }
  }

  lemma {:induction false} ForeignAppended(ours: string -> bool, rules: seq<string>, lines: seq<string>)
    requires forall line :: line in lines ==> ours(line)
    ensures Foreign(ours, rules + lines) == Foreign(ours, rules)
  {
    ForeignConcat(ours, rules, lines);
    ForeignOfOurs(ours, lines);
  }

  lemma {:induction false} ForeignInserted(ours: string -> bool, rules: seq<string>, lines: seq<string>)
    requires forall line :: line in lines ==> ours(line)
    ensures Foreign(ours, Inserted(rules, lines)) == Foreign(ours, rules)
  {
    if lines != [] {
      var line := lines[|lines| - 1];
      ForeignInserted(ours, rules, lines[..|lines| - 1]);
      ForeignConcat(ours, [line], Inserted(rules, lines[..|lines| - 1]));
      ForeignOfOurs(ours, [line]);
    }
  }

  // ---- the rules EnsureRedirect leaves ----

  lemma {:induction false} RedirectsAreOurs(o: Options, n: nat, withComment: bool)
    requires n <= |o.interfaces|
    ensures forall line :: line in Redirects(o, n, withComment) ==> OurRedirect(line)
  {
    var lines := Redirects(o, n, withComment);
    forall line | line in lines ensures OurRedirect(line) {
      var i: nat :| i < |lines| && lines[i] == line;
      RedirectsPlaced(o, n, withComment, i);
      RedirectListed(o, o.interfaces[i / 2], i % 2, withComment);
    }
  }

  lemma {:induction false} RejectsAreOurs(o: Options, n: nat, withComment: bool)
    requires n <= |o.interfaces|
    ensures forall line :: line in Rejects(o, n, withComment) ==> OurReject(line)
  {
    if n > 0 {
      RejectsAreOurs(o, n - 1, withComment);
      RejectListed(o, o.interfaces[n - 1], withComment);
    }
  }

  lemma {:induction false} RedirectAt(o: Options, n: nat, withComment: bool, k: nat, i: nat)
    requires k < n <= |o.interfaces| && i < 2
    ensures Listed(Prerouting, RedirectSpec(o, o.interfaces[k], i, withComment)) in Redirects(o, n, withComment)
  {
    var j := 2 * k + i;
    assert j / 2 == k && j % 2 == i;
    RedirectsPlaced(o, n, withComment, j);
    assert Redirects(o, n, withComment)[j] in Redirects(o, n, withComment);
  }

  lemma {:induction false} RejectAt(o: Options, n: nat, withComment: bool, k: nat)
    requires k < n <= |o.interfaces|
    ensures Listed(Forward, RejectSpec(o, o.interfaces[k], withComment)) in Rejects(o, n, withComment)
  {
    if k < n - 1 {
      RejectAt(o, n - 1, withComment, k);
    } else {
      assert Rejects(o, n, withComment)[n - 1] == Listed(Forward, RejectSpec(o, o.interfaces[k], withComment));
    }
  }

  lemma {:induction false} RedirectsPresent(rules: seq<string>, o: Options, withComment: bool)
    requires forall line :: line in Redirects(o, |o.interfaces|, withComment) ==> line in rules
    ensures RedirectPresent(rules, o)
  {
    forall iface, i | iface in o.interfaces && 0 <= i < 2
      ensures AnyLineHasAll(rules, "-A PREROUTING ", RedirectWants(o, iface, i))
    {
      var k: nat :| k < |o.interfaces| && o.interfaces[k] == iface;
      RedirectAt(o, |o.interfaces|, withComment, k, i);
      RedirectListed(o, iface, i, withComment);
    }
  }

  lemma {:induction false} RejectsPresent(rules: seq<string>, o: Options, withComment: bool)
    requires forall line :: line in Rejects(o, |o.interfaces|, withComment) ==> line in rules
    ensures RejectPresent(rules, o)
  {
    forall iface | iface in o.interfaces ensures AnyLineHasAll(rules, "-A FORWARD ", RejectWants(o, iface)) {
      var k: nat :| k < |o.interfaces| && o.interfaces[k] == iface;
      RejectAt(o, |o.interfaces|, withComment, k);
      RejectListed(o, iface, withComment);
    }
  }

  lemma {:induction false} RedirectsUDP(o: Options, n: nat, withComment: bool)
    requires n <= |o.interfaces|
    ensures forall line :: line in Redirects(o, n, withComment) && Contains(line, "-p udp") ==> NamesUDP(o)
  {
    var lines := Redirects(o, n, withComment);
    forall line | line in lines && Contains(line, "-p udp") ensures NamesUDP(o) {
      var i: nat :| i < |lines| && lines[i] == line;
      RedirectsPlaced(o, n, withComment, i);
      RedirectIsTCP(o, o.interfaces[i / 2], i % 2, withComment);
    }
  }

  lemma {:induction false} NamesUDPSeen(o: Options, withComment: bool)
    requires Valid(o) && NamesUDP(o)
    ensures exists line :: line in Redirects(o, |o.interfaces|, withComment) && RedirectUDP(line)
  {
    var k: nat :| k < |o.interfaces| && (Contains(o.setName, "-p udp") || Contains(o.interfaces[k], "-p udp"));
    RedirectAt(o, |o.interfaces|, withComment, k, 0);
    RedirectIsTCP(o, o.interfaces[k], 0, withComment);
    RedirectListed(o, o.interfaces[k], 0, withComment);
  }

  /** The rules left are what the drift check looks for, with or without the
      comment match, unless a name holds "-p udp". */
  lemma {:induction false} RedirectedIsClean(foreign: seq<string>, o: Options, withComment: bool)
    requires Valid(o) && forall line :: line in foreign ==> !OurRedirect(line)
    ensures var left := foreign + Redirects(o, |o.interfaces|, withComment);
            && RedirectPresent(left, o)
            && ((forall line :: line in left ==> !RedirectUDP(line)) <==> !NamesUDP(o))
  {
    RedirectsPresent(foreign + Redirects(o, |o.interfaces|, withComment), o, withComment);
    RedirectsUDP(o, |o.interfaces|, withComment);
    if NamesUDP(o) {
      NamesUDPSeen(o, withComment);
    }
  }

  lemma {:induction false} RedirectsPlaced(o: Options, n: nat, withComment: bool, i: nat)
    requires i < 2 * n && n <= |o.interfaces|
    ensures Redirects(o, n, withComment)[i] == Listed(Prerouting, RedirectSpec(o, o.interfaces[i / 2], i % 2, withComment))
  {
    if i < 2 * (n - 1) {
      RedirectsPlaced(o, n - 1, withComment, i);
    } else if i == 2 * n - 2 {
      assert i / 2 == n - 1 && i % 2 == 0;
    } else {
      assert i / 2 == n - 1 && i % 2 == 1;
    }
  }

  lemma {:induction false} RedirectIs(o: Options, withComment: bool, i: nat)
    requires i < 2 * |o.interfaces|
    ensures Redirects(o, |o.interfaces|, withComment)[i] == RedirectOf(o, i, withComment)
  {
    RedirectsPlaced(o, |o.interfaces|, withComment, i);
    RedirectPrinted(o, o.interfaces[i / 2], i % 2, withComment);
  }

  lemma {:induction false} RejectsPlaced(o: Options, n: nat, withComment: bool, k: nat)
    requires k < n <= |o.interfaces|
    ensures Rejects(o, n, withComment)[k] == RejectLine(o, o.interfaces[k], withComment)
  {
    if k < n - 1 { RejectsPlaced(o, n - 1, withComment, k); } else { RejectPrinted(o, o.interfaces[k], withComment); }
  }

  lemma {:induction false} TailIs(table: seq<string>, foreign: seq<string>, lines: seq<string>)
    ensures var n := |foreign|;
            table == foreign + lines <==> |table| == n + |lines| && table[..n] == foreign && table[n..] == lines
  {
    if |table| >= |foreign| { assert table == table[..|foreign|] + table[|foreign|..]; }
  }

  lemma {:induction false} RedirectsAre(o: Options, withComment: bool, lines: seq<string>)
    requires |lines| == 2 * |o.interfaces|
    ensures lines == Redirects(o, |o.interfaces|, withComment)
            <==> forall i :: 0 <= i < |lines| ==> lines[i] == RedirectOf(o, i, withComment)
  {
    var want := Redirects(o, |o.interfaces|, withComment);
    forall i | 0 <= i < |lines| ensures want[i] == RedirectOf(o, i, withComment) { RedirectIs(o, withComment, i); }
  }

  lemma {:induction false} RedirectsLastIs(table: seq<string>, foreign: seq<string>, o: Options, withComment: bool)
    ensures RedirectsLast(table, foreign, o, withComment)
            <==> table == foreign + Redirects(o, |o.interfaces|, withComment)
  {
    TailIs(table, foreign, Redirects(o, |o.interfaces|, withComment));
    if |table| == |foreign| + 2 * |o.interfaces| { RedirectsAre(o, withComment, table[|foreign|..]); }
  }

  /** A table whose head is given backwards. */
  lemma {:induction false} BackwardsPlaced(table: seq<string>, foreign: seq<string>, lines: seq<string>)
    ensures var n := |lines|;
            table == Inserted(foreign, lines) <==>
              && |table| == n + |foreign| && table[n..] == foreign
              && forall k: nat :: k < n ==> table[n - 1 - k] == lines[k]
  {
    var n, want := |lines|, Inserted(foreign, lines);
    forall k: nat | k < n ensures want[n - 1 - k] == lines[k] {}
    if |table| == n + |foreign| && table[n..] == foreign && forall k: nat :: k < n ==> table[n - 1 - k] == lines[k] {
      forall i | 0 <= i < n ensures table[i] == want[i] {
        var k: nat := n - 1 - i;
        assert table[n - 1 - k] == lines[k];
      }
      assert table == table[..n] + table[n..] && want == want[..n] + want[n..];
    }
  }

  lemma {:induction false} RejectsFirstIs(table: seq<string>, foreign: seq<string>, o: Options, withComment: bool)
    ensures RejectsFirst(table, foreign, o, withComment)
            <==> table == Inserted(foreign, Rejects(o, |o.interfaces|, withComment))
  {
    var n, lines := |o.interfaces|, Rejects(o, |o.interfaces|, withComment);
    forall k: nat | k < n ensures lines[k] == RejectLine(o, o.interfaces[k], withComment) {
      RejectsPlaced(o, n, withComment, k);
    }
    BackwardsPlaced(table, foreign, lines);
  }

  /** Only the last EnsureRedirect matters: the redirects an earlier one left,
      for whatever options, are replaced, and a repeated one changes nothing. */
  lemma {:induction false} LastRedirectsWin(rules: seq<string>, mid: seq<string>, o: Options, c: bool,
                                            after: seq<string>, direct: seq<string>, o': Options, c': bool)
    requires RedirectsLast(mid, Foreign(OurRedirect, rules), o, c)
    requires RedirectsLast(after, Foreign(OurRedirect, mid), o', c')
    requires RedirectsLast(direct, Foreign(OurRedirect, rules), o', c')
    ensures after == direct
  {
    var foreign := Foreign(OurRedirect, rules);
    RedirectsLastIs(mid, foreign, o, c);
    RedirectsLastIs(after, Foreign(OurRedirect, mid), o', c');
    RedirectsLastIs(direct, foreign, o', c');
    RedirectsAreOurs(o, |o.interfaces|, c);
    ForeignAppended(OurRedirect, foreign, Redirects(o, |o.interfaces|, c));
    ForeignOfForeign(OurRedirect, foreign);
  }

  /** The same for the rejects. */
  lemma {:induction false} LastRejectsWin(rules: seq<string>, mid: seq<string>, o: Options, c: bool,
                                          after: seq<string>, direct: seq<string>, o': Options, c': bool)
    requires RejectsFirst(mid, Foreign(OurReject, rules), o, c)
    requires RejectsFirst(after, Foreign(OurReject, mid), o', c')
    requires RejectsFirst(direct, Foreign(OurReject, rules), o', c')
    ensures after == direct
  {
    var foreign := Foreign(OurReject, rules);
    RejectsFirstIs(mid, foreign, o, c);
    RejectsFirstIs(after, Foreign(OurReject, mid), o', c');
    RejectsFirstIs(direct, foreign, o', c');
    RejectsAreOurs(o, |o.interfaces|, c);
    ForeignInserted(OurReject, foreign, Rejects(o, |o.interfaces|, c));
    ForeignOfForeign(OurReject, foreign);
  }

  // ---- the router ----

  class Router {
    var prerouting: seq<string>
    var forward: seq<string>
    var rejectProblem: bool

    constructor (redirects: seq<string>, forward: seq<string>)
      ensures prerouting == redirects && this.forward == forward && !rejectProblem
    {
      prerouting, this.forward, rejectProblem := redirects, forward, false;
    }

    /** One attempt at the redirects. */
    method AddRedirects(o: Options, withComment: bool, adds: nat -> bool) returns (ok: bool)
      modifies this`prerouting
      ensures ok <==> Takes(adds, 2 * |o.interfaces|)
      ensures Foreign(OurRedirect, prerouting) == Foreign(OurRedirect, old(prerouting))
      ensures ok ==> prerouting == old(prerouting) + Redirects(o, |o.interfaces|, withComment)
      ensures ok ==> RedirectPresent(prerouting, o)
    {
      var lines := RedirectRulesFor(o, withComment);
      RedirectsAreOurs(o, |o.interfaces|, withComment);
      ghost var before := prerouting;
      prerouting, ok := AppendRules(prerouting, lines, adds);
      ghost var n: nat :| n <= |lines| && prerouting == before + lines[..n];
      ForeignAppended(OurRedirect, before, lines[..n]);
      if ok { RedirectsPresent(prerouting, o, withComment); }
    }

    /** One attempt at the rejects. */
    method AddRejects(o: Options, withComment: bool, adds: nat -> bool) returns (ok: bool)
      modifies this`forward
      ensures ok <==> Takes(adds, |o.interfaces|)
      ensures Foreign(OurReject, forward) == Foreign(OurReject, old(forward))
      ensures ok ==> forward == Inserted(old(forward), Rejects(o, |o.interfaces|, withComment))
      ensures ok ==> RejectPresent(forward, o)
    {
      var lines := RejectRulesFor(o, withComment);
      RejectsAreOurs(o, |o.interfaces|, withComment);
      ghost var before := forward;
      forward, ok := InsertRules(forward, lines, adds);
      ghost var n: nat :| n <= |lines| && forward == Inserted(before, lines[..n]);
      ForeignInserted(OurReject, before, lines[..n]);
      if ok {
        InsertedHas(before, lines);
        RejectsPresent(forward, o, withComment);
      }
    }

    /** With the comment match, or without it where it is not available. */
    method InstallRedirects(o: Options, t: Trial, ghost foreign: seq<string>) returns (ok: bool)
      requires Valid(o) && Foreign(OurRedirect, prerouting) == foreign
      modifies this`prerouting
      ensures ok <==> Takes(t.commented, 2 * |o.interfaces|) || Takes(t.plain, 2 * |o.interfaces|)
      ensures Foreign(OurRedirect, prerouting) == foreign
      ensures ok ==> RedirectPresent(prerouting, o)
      ensures ok && old(prerouting) == foreign && Tidy(t, 2 * |o.interfaces|)
              ==> && RedirectsLast(prerouting, foreign, o, Takes(t.commented, 2 * |o.interfaces|))
                  && ((forall line :: line in prerouting ==> !RedirectUDP(line)) <==> !NamesUDP(o))
    {
      ok := AddRedirects(o, true, t.commented);
      if ok {
        RedirectsLastIs(prerouting, foreign, o, true);
        RedirectedIsClean(foreign, o, true);
        return;
      }
      prerouting := ClearOurs(OurRedirect, prerouting, t.between);
      ok := AddRedirects(o, false, t.plain);
      RedirectsLastIs(prerouting, foreign, o, false);
      RedirectedIsClean(foreign, o, false);
    }

    /** Best effort: a failure is remembered, not returned. */
    method EnsureQUICReject(o: Options, t: Trial, last: Clearing, ghost foreign: seq<string>)
      requires Foreign(OurReject, forward) == foreign
      modifies this`forward, this`rejectProblem
      ensures Foreign(OurReject, forward) == foreign
      ensures rejectProblem <==> !Takes(t.commented, |o.interfaces|) && !Takes(t.plain, |o.interfaces|)
      ensures rejectProblem || RejectPresent(forward, o)
      ensures rejectProblem && Works(last) ==> forward == foreign
      ensures !rejectProblem && old(forward) == foreign && Tidy(t, |o.interfaces|)
              ==> RejectsFirst(forward, foreign, o, Takes(t.commented, |o.interfaces|))
    {
      var ok := AddRejects(o, true, t.commented);
      RejectsFirstIs(forward, foreign, o, true);
      if !ok {
        forward := ClearOurs(OurReject, forward, t.between);
        ok := AddRejects(o, false, t.plain);
        RejectsFirstIs(forward, foreign, o, false);
      }
      if !ok {
        forward := ClearOurs(OurReject, forward, last);
        rejectProblem := true;
        return;
      }
      rejectProblem := false;
    }

    /** Installs the redirects, which must succeed, and the rejects, which need
        not; ok is a nil error. */
    method EnsureRedirect(o: Options, c1: Clearing, c2: Clearing, redirect: Trial, reject: Trial, last: Clearing)
      returns (ok: bool)
      modifies this
      ensures var n := |o.interfaces|;
              ok <==> && o.setName != "" && 0 < o.port <= 65535 && n > 0
                      && (Takes(redirect.commented, 2 * n) || Takes(redirect.plain, 2 * n))
      ensures o.setName == "" || o.port <= 0 || o.port > 65535 || o.interfaces == [] ==> unchanged(this)
      ensures Foreign(OurRedirect, prerouting) == Foreign(OurRedirect, old(prerouting))
      ensures Foreign(OurReject, forward) == Foreign(OurReject, old(forward))
      ensures !ok ==> rejectProblem == old(rejectProblem)
      ensures !ok && Valid(o) && Works(c2) ==> forward == Foreign(OurReject, old(forward))
      ensures ok ==> (rejectProblem <==> !Takes(reject.commented, |o.interfaces|) && !Takes(reject.plain, |o.interfaces|))
      ensures ok && rejectProblem && Works(last) ==> forward == Foreign(OurReject, old(forward))
      ensures ok && !rejectProblem && Works(c2) && Tidy(reject, |o.interfaces|)
              ==> RejectsFirst(forward, Foreign(OurReject, old(forward)), o, Takes(reject.commented, |o.interfaces|))
      ensures ok ==> (InPlace(prerouting, forward, rejectProblem, o)
                      <==> forall line :: line in prerouting ==> !RedirectUDP(line))
      ensures ok && Works(c1) && Tidy(redirect, 2 * |o.interfaces|)
              ==> RedirectsLast(prerouting, Foreign(OurRedirect, old(prerouting)), o,
                                Takes(redirect.commented, 2 * |o.interfaces|))
      ensures ok && Works(c1) && Tidy(redirect, 2 * |o.interfaces|)
              ==> (InPlace(prerouting, forward, rejectProblem, o) <==> !NamesUDP(o))
    {
      if !Valid(o) {
        return false;
      }
      ghost var redirects := Foreign(OurRedirect, prerouting);
      ghost var rejects := Foreign(OurReject, forward);
      prerouting := ClearOurs(OurRedirect, prerouting, c1);
      forward := ClearOurs(OurReject, forward, c2);
      ok := InstallRedirects(o, redirect, redirects);
      if !ok {
        return false;
      }
      EnsureQUICReject(o, reject, last, rejects);
    }
  }
}
