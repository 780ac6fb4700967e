/** Static DNS hosts: normalising the configured table and answering a query by longest match.
    Strings stand for their UTF-8 bytes. */
module StaticHosts {
  import opened Wrappers
  import opened Ordering
  import opened Listing

  /** A configured entry: the domain as written, and its address strings. */
  datatype Raw = Raw(domain: string, addresses: seq<string>)

  /** A normalised entry: domain without trailing dots in lower case, and its parsed addresses. */
  datatype Host = Host(domain: string, ips: seq<nat>)

  /** Library calls the code makes: lower-casing and address parsing. */
  datatype Library = Library(lower: string -> string, parse: string -> Option<nat>)

  function TrimDots(s: string): string { if s != [] && s[|s| - 1] == '.' then TrimDots(s[..|s| - 1]) else s }

  function Norm(lib: Library, domain: string): string { lib.lower(TrimDots(domain)) }

  function ValidIps(lib: Library, addresses: seq<string>): seq<nat>
  {
    if addresses == [] then []
    else
      var n := |addresses| - 1;
      match lib.parse(addresses[n])
      case Some(ip) => ValidIps(lib, addresses[..n]) + [ip]
      case None => ValidIps(lib, addresses[..n])
  }

  // ------------------------------------------------------ sorting by raw key

  function InsertByKey(s: seq<Raw>, e: Raw): seq<Raw>
  {
    if s == [] then [e]
    else
      var n := |s| - 1;
      if Less(e.domain, s[n].domain) then InsertByKey(s[..n], e) + [s[n]] else s + [e]
  }

  function SortByKey(s: seq<Raw>): seq<Raw>
  {
    if s == [] then [] else InsertByKey(SortByKey(s[..|s| - 1]), s[|s| - 1])
  }

  predicate StrictlySorted(s: seq<Raw>) { forall i, j :: 0 <= i < j < |s| ==> Less(s[i].domain, s[j].domain) }

  predicate KeysDistinct(s: seq<Raw>) { forall i, j :: 0 <= i < j < |s| ==> s[i].domain != s[j].domain }

  lemma {:induction false} InsertByKeySorts(s: seq<Raw>, e: Raw)
    requires StrictlySorted(s) && forall i :: 0 <= i < |s| ==> s[i].domain != e.domain
    ensures StrictlySorted(InsertByKey(s, e))
    ensures forall x :: x in InsertByKey(s, e) <==> x in s || x == e
    decreases |s|
  {
    if s != [] {
      var n := |s| - 1;
      LessTotal(e.domain, s[n].domain);
      if Less(e.domain, s[n].domain) {
        InsertByKeySorts(s[..n], e);
        var t := InsertByKey(s[..n], e);
        forall i | 0 <= i < |t| ensures Less(t[i].domain, s[n].domain) {
          assert t[i] in t;
        }
        assert forall x :: x in s <==> x in s[..n] || x == s[n];
      } else {
        forall i | 0 <= i < |s| ensures Less(s[i].domain, e.domain) {
          if i < n {
            LessTransitive(s[i].domain, s[n].domain, e.domain);
          }
        }
      }
    }
  }

  lemma {:induction false} SortByKeySorts(s: seq<Raw>)
    requires KeysDistinct(s)
    ensures StrictlySorted(SortByKey(s)) && forall x :: x in SortByKey(s) <==> x in s
  {
    if s != [] {
      var n := |s| - 1;
      SortByKeySorts(s[..n]);
      var t := SortByKey(s[..n]);
      forall i | 0 <= i < |t| ensures t[i].domain != s[n].domain {
        assert t[i] in s[..n];
        var j :| 0 <= j < n && s[j] == t[i];
      }
      InsertByKeySorts(t, s[n]);
      assert forall x :: x in s <==> x in s[..n] || x == s[n];
    }
  }

  lemma HasMember(b: seq<Raw>)
    ensures b == [] || exists x :: x in b
  {
    if b != [] {
      assert b[0] in b;
    }
  }

  /** A strictly sorted list is determined by its elements. */
  lemma {:induction false} SortedUnique(a: seq<Raw>, b: seq<Raw>)
    requires StrictlySorted(a) && StrictlySorted(b) && forall x :: x in a <==> x in b
    ensures a == b
    decreases |a|
  {
    HasMember(b);
    if a != [] {
      assert a[0] in b;
      assert b != [] && b[0] in a;
      HeadsAgree(a, b);
      forall x ensures x in a[1..] <==> x in b[1..] {
        TailMember(a, x);
        TailMember(b, x);
      }
      SortedUnique(a[1..], b[1..]);
      assert a == [a[0]] + a[1..] && b == [b[0]] + b[1..];
    }
  }

  lemma HeadsAgree(a: seq<Raw>, b: seq<Raw>)
    requires StrictlySorted(a) && StrictlySorted(b) && a != [] && b != [] && a[0] in b && b[0] in a
    ensures a[0] == b[0]
  {
    var i :| 0 <= i < |b| && b[i] == a[0];
    var j :| 0 <= j < |a| && a[j] == b[0];
    LessTotal(a[0].domain, b[0].domain);
  }

  lemma TailMember(a: seq<Raw>, x: Raw)
    requires StrictlySorted(a) && a != []
    ensures x in a[1..] <==> x in a && x != a[0]
  {
    if x in a[1..] {
      var i :| 0 <= i < |a[1..]| && a[1..][i] == x;
      assert a[i + 1] == x;
      LessTotal(x.domain, x.domain);
    }
  }

  // ----------------------------------------------------------- normalising

  predicate HasDomain(hosts: seq<Host>, domain: string) { exists i :: 0 <= i < |hosts| && hosts[i].domain == domain }

  function Gather(lib: Library, entries: seq<Raw>): seq<Host>
  {
    if entries == [] then []
    else
      var n := |entries| - 1;
      var out, norm := Gather(lib, entries[..n]), Norm(lib, entries[n].domain);
      var ips := ValidIps(lib, entries[n].addresses);
      if norm == "" || ips == [] || HasDomain(out, norm) then out else out + [Host(norm, ips)]
  }

  /** Inserts before the first strictly shorter domain, so equal lengths keep their order. */
  function InsertByLength(s: seq<Host>, h: Host): seq<Host>
  {
    if s == [] then [h]
    else
      var n := |s| - 1;
      if |s[n].domain| < |h.domain| then InsertByLength(s[..n], h) + [s[n]] else s + [h]
  }

  function SortByLength(s: seq<Host>): seq<Host>
  {
    if s == [] then [] else InsertByLength(SortByLength(s[..|s| - 1]), s[|s| - 1])
  }

  function Normalized(lib: Library, raw: seq<Raw>): seq<Host> { SortByLength(Gather(lib, SortByKey(raw))) }

  /** `normalize_static_hosts` on one enumeration of the configured map. */
  method NormalizeStaticHosts(lib: Library, raw: seq<Raw>) returns (hosts: seq<Host>)
    requires KeysDistinct(raw)
    ensures hosts == Normalized(lib, raw)
    ensures DomainsUnique(hosts) && LongestFirst(hosts)
  {
    var entries := SortByKey(raw);
    var out: seq<Host> := [];
    for i := 0 to |entries|
      invariant out == Gather(lib, entries[..i])
    {
      assert entries[..i + 1][..i] == entries[..i];
      var norm := Norm(lib, entries[i].domain);
      if norm == "" {
        continue;
      }
      var ips := ParseAddresses(lib, entries[i].addresses);
      if ips == [] {
        continue;
      }
      if HasDomain(out, norm) {
        continue;
      }
      out := out + [Host(norm, ips)];
    }
    assert entries[..|entries|] == entries;
    GatherUnique(lib, entries);
    SortByLengthSorts(out);
    hosts := SortByLength(out);
  }

  method ParseAddresses(lib: Library, addresses: seq<string>) returns (ips: seq<nat>)
    ensures ips == ValidIps(lib, addresses)
  {
    ips := [];
    for i := 0 to |addresses|
      invariant ips == ValidIps(lib, addresses[..i])
    {
      assert addresses[..i + 1][..i] == addresses[..i];
      match lib.parse(addresses[i])
      case Some(ip) => ips := ips + [ip];
      case None =>
    }
    assert addresses[..|addresses|] == addresses;
  }

  /** The result does not depend on the order in which the map was enumerated. */
  lemma EnumerationOrderFree(lib: Library, raw: seq<Raw>, raw': seq<Raw>)
    requires KeysDistinct(raw) && KeysDistinct(raw') && forall x :: x in raw <==> x in raw'
    ensures Normalized(lib, raw) == Normalized(lib, raw')
  {
    SortByKeySorts(raw);
    SortByKeySorts(raw');
    SortedUnique(SortByKey(raw), SortByKey(raw'));
  }

  // ------------------------------------------------------ shape of the result

  predicate DomainsUnique(hosts: seq<Host>)
  {
    forall i, j :: 0 <= i < j < |hosts| ==> hosts[i].domain != hosts[j].domain
  }

  predicate LongestFirst(hosts: seq<Host>)
  {
    forall i, j :: 0 <= i < j < |hosts| ==> |hosts[i].domain| >= |hosts[j].domain|
  }

  lemma {:induction false} GatherUnique(lib: Library, entries: seq<Raw>)
    ensures DomainsUnique(Gather(lib, entries))
  {
    if entries != [] {
      GatherUnique(lib, entries[..|entries| - 1]);
    }
  }

  lemma AppendShortest(s: seq<Host>, h: Host)
    requires LongestFirst(s) && DomainsUnique(s)
    requires forall i :: 0 <= i < |s| ==> |s[i].domain| >= |h.domain| && s[i].domain != h.domain
    ensures LongestFirst(s + [h]) && DomainsUnique(s + [h])
  {
  }

  lemma {:induction false} InsertByLengthSorts(s: seq<Host>, h: Host)
    requires LongestFirst(s) && DomainsUnique(s) && !HasDomain(s, h.domain)
    ensures LongestFirst(InsertByLength(s, h)) && DomainsUnique(InsertByLength(s, h))
    ensures forall x :: x in InsertByLength(s, h) <==> x in s || x == h
    decreases |s|
  {
    if s != [] {
      var n := |s| - 1;
      var fewer, last := s[..n], s[n];
      assert forall x :: x in s <==> x in fewer || x == last;
      if |last.domain| < |h.domain| {
        assert !HasDomain(fewer, h.domain);
        InsertByLengthSorts(fewer, h);
        var t := InsertByLength(fewer, h);
        forall i | 0 <= i < |t| ensures |t[i].domain| >= |last.domain| && t[i].domain != last.domain {
          assert t[i] in t;
          if t[i] in fewer {
            var j :| 0 <= j < n && s[j] == t[i];
          }
        }
        AppendShortest(t, last);
      } else {
        AppendShortest(s, h);
      }
    }
  }

  lemma {:induction false} SortByLengthSorts(s: seq<Host>)
    requires DomainsUnique(s)
    ensures LongestFirst(SortByLength(s)) && DomainsUnique(SortByLength(s))
    ensures forall x :: x in SortByLength(s) <==> x in s
  {
    if s != [] {
      var n := |s| - 1;
      SortByLengthSorts(s[..n]);
      var t := SortByLength(s[..n]);
      forall i | 0 <= i < |t| ensures t[i].domain != s[n].domain {
        assert t[i] in s[..n];
        var j :| 0 <= j < n && s[j] == t[i];
      }
      InsertByLengthSorts(t, s[n]);
      assert forall x :: x in s <==> x in s[..n] || x == s[n];
    }
  }

  /** An entry that can be used: a non-empty domain and at least one valid address. */
  predicate Usable(lib: Library, e: Raw) { Norm(lib, e.domain) != "" && ValidIps(lib, e.addresses) != [] }

  /** `e` is the least raw key among the usable entries with its normalised domain. */
  predicate Wins(lib: Library, entries: seq<Raw>, e: Raw)
  {
    && e in entries && Usable(lib, e)
    && forall x :: x in entries && Usable(lib, x) && Norm(lib, x.domain) == Norm(lib, e.domain) ==>
          AtMost(e.domain, x.domain)
  }

  function HostOf(lib: Library, e: Raw): Host { Host(Norm(lib, e.domain), ValidIps(lib, e.addresses)) }

  lemma {:induction false} GatherKeepsWinners(lib: Library, entries: seq<Raw>)
    requires StrictlySorted(entries)
    ensures forall h :: h in Gather(lib, entries) <==> exists e :: Wins(lib, entries, e) && h == HostOf(lib, e)
    ensures forall x :: x in entries && Usable(lib, x) ==> HasDomain(Gather(lib, entries), Norm(lib, x.domain))
  {
    if entries != [] {
      var n := |entries| - 1;
      var fewer, last := entries[..n], entries[n];
      GatherKeepsWinners(lib, fewer);
      var out := Gather(lib, fewer);
      assert forall x :: x in entries <==> x in fewer || x == last;
      forall x | x in fewer
        ensures Less(x.domain, last.domain) && AtMost(x.domain, last.domain) && !AtMost(last.domain, x.domain)
      {
        var i :| 0 <= i < n && entries[i] == x;
        LessTotal(x.domain, last.domain);
      }
      LessTotal(last.domain, last.domain);
      if Usable(lib, last) && !HasDomain(out, Norm(lib, last.domain)) {
        assert Gather(lib, entries) == out + [HostOf(lib, last)];
        assert Gather(lib, entries)[|out|].domain == Norm(lib, last.domain);
      }
      assert forall d :: HasDomain(out, d) ==> HasDomain(Gather(lib, entries), d) by {
        forall d | HasDomain(out, d) ensures HasDomain(Gather(lib, entries), d) {
          var i :| 0 <= i < |out| && out[i].domain == d;
          assert Gather(lib, entries)[i] == out[i];
        }
      }
      forall e ensures Wins(lib, entries, e) <==> WinsExtended(lib, fewer, last, e, out) {
        WinsSnoc(lib, entries, fewer, last, e, out);
      }
    }
  }

  /** Who wins when one more entry, larger than all others, is appended. */
  predicate WinsExtended(lib: Library, fewer: seq<Raw>, last: Raw, e: Raw, out: seq<Host>)
  {
    Wins(lib, fewer, e) || (e == last && Usable(lib, last) && !HasDomain(out, Norm(lib, last.domain)))
  }

  lemma WinsSnoc(lib: Library, entries: seq<Raw>, fewer: seq<Raw>, last: Raw, e: Raw, out: seq<Host>)
    requires forall x :: x in entries <==> x in fewer || x == last
    requires forall x :: x in fewer ==> AtMost(x.domain, last.domain) && !AtMost(last.domain, x.domain)
    requires AtMost(last.domain, last.domain)
    requires forall x :: x in fewer && Usable(lib, x) ==> HasDomain(out, Norm(lib, x.domain))
    requires forall h :: h in out <==> exists w :: Wins(lib, fewer, w) && h == HostOf(lib, w)
    ensures Wins(lib, entries, e) <==> WinsExtended(lib, fewer, last, e, out)
  {
    if HasDomain(out, Norm(lib, last.domain)) {
      var i :| 0 <= i < |out| && out[i].domain == Norm(lib, last.domain);
      assert out[i] in out;
      var w :| Wins(lib, fewer, w) && out[i] == HostOf(lib, w);
    }
  }

  /** What the normalised table holds: for every normalised domain with a usable entry, the entry
      with the least raw key, and nothing else. */
  lemma NormalizedIs(lib: Library, raw: seq<Raw>)
    requires KeysDistinct(raw)
    ensures forall h :: h in Normalized(lib, raw) <==> exists e :: Wins(lib, raw, e) && h == HostOf(lib, e)
  {
    var entries := SortByKey(raw);
    SortByKeySorts(raw);
    GatherKeepsWinners(lib, entries);
    GatherUnique(lib, entries);
    SortByLengthSorts(Gather(lib, entries));
    assert forall e :: Wins(lib, raw, e) <==> Wins(lib, entries, e);
  }

  // -------------------------------------------------------------- answering

  /** `static_domain_matches`: the domain itself, or a proper subdomain of it. */
  predicate Matches(query: string, key: string)
  {
    || query == key
    || (|query| > |key| + 1 && query[|query| - |key|..] == key && query[|query| - |key| - 1] == '.')
  }

  /** The key itself, or something and a dot in front of it. */
  lemma MatchesIff(query: string, key: string)
    ensures Matches(query, key) <==> query == key || exists sub :: sub != "" && query == sub + "." + key
  {
    if Matches(query, key) && query != key {
      var sub := query[..|query| - |key| - 1];
      assert query == sub + "." + key;
    }
    if sub :| sub != "" && query == sub + "." + key {
      assert query[|query| - |key|..] == key && query[|query| - |key| - 1] == '.';
    }
  }

  /** Index of the first match, or the length. */
  method FirstMatch(hosts: seq<Host>, query: string) returns (k: nat)
    requires DomainsUnique(hosts) && LongestFirst(hosts)
    ensures k <= |hosts| && (k == |hosts| <==> forall i :: 0 <= i < |hosts| ==> !Matches(query, hosts[i].domain))
    ensures k < |hosts| ==> Matches(query, hosts[k].domain)
    ensures k < |hosts| ==> forall i :: 0 <= i < |hosts| && i != k && Matches(query, hosts[i].domain) ==>
                              |hosts[i].domain| < |hosts[k].domain|
  {
    k := 0;
    while k < |hosts| && !Matches(query, hosts[k].domain)
      invariant 0 <= k <= |hosts| && forall i :: 0 <= i < k ==> !Matches(query, hosts[i].domain)
    {
      k := k + 1;
    }
    if k < |hosts| {
      forall i | k < i < |hosts| && Matches(query, hosts[i].domain) ensures |hosts[i].domain| < |hosts[k].domain| {
        if |hosts[i].domain| == |hosts[k].domain| {
          MatchDetermined(query, hosts[i].domain, hosts[k].domain);
        }
      }
    }
  }

  /** At most one domain of a given length matches a query. */
  lemma MatchDetermined(query: string, a: string, b: string)
    requires Matches(query, a) && Matches(query, b) && |a| == |b|
    ensures a == b
  {
  }

  // ------------------------------------------------------ order of the result

  /** A domain loses its trailing dots and nothing else. */
  lemma {:induction false} TrimDotsIs(s: string)
    ensures var t := TrimDots(s);
            && t <= s && (forall i :: |t| <= i < |s| ==> s[i] == '.') && (t != "" ==> t[|t| - 1] != '.')
  {
    if s != [] && s[|s| - 1] == '.' {
      TrimDotsIs(s[..|s| - 1]);
    }
  }

  function Parses(lib: Library, addresses: seq<string>): nat -> bool
  {
    (i: nat) => i < |addresses| && lib.parse(addresses[i]).Some?
  }

  function ParsedAs(lib: Library, addresses: seq<string>): (nat, nat) -> bool
  {
    (i: nat, ip: nat) => i < |addresses| && lib.parse(addresses[i]) == Some(ip)
  }

  /** The addresses of an entry are those that parse, in order. */
  lemma {:induction false} ValidIpsLists(lib: Library, addresses: seq<string>, n: nat)
    requires n <= |addresses|
    ensures Lists(n, ValidIps(lib, addresses[..n]), Parses(lib, addresses), ParsedAs(lib, addresses))
  {
    if n == 0 {
      ListsNone(Parses(lib, addresses), ParsedAs(lib, addresses));
    } else {
      ValidIpsLists(lib, addresses, n - 1);
      assert addresses[..n][..n - 1] == addresses[..n - 1] && addresses[..n][n - 1] == addresses[n - 1];
      var before, one := ValidIps(lib, addresses[..n - 1]), lib.parse(addresses[n - 1]);
      ListsMore(n - 1, before, Parses(lib, addresses), ParsedAs(lib, addresses), if one.Some? then one.value else 0);
    }
  }

  /** Some usable entry among the first `n` has the normalised domain. */
  predicate Seen(lib: Library, entries: seq<Raw>, n: nat, d: string)
  {
    exists j :: 0 <= j < n && j < |entries| && Usable(lib, entries[j]) && Norm(lib, entries[j].domain) == d
  }

  lemma SeenSnoc(lib: Library, entries: seq<Raw>, n: nat, d: string)
    requires n < |entries|
    ensures Seen(lib, entries, n + 1, d) <==>
              Seen(lib, entries, n, d) || (Usable(lib, entries[n]) && Norm(lib, entries[n].domain) == d)
  {
  }

  /** A usable entry whose normalised domain no usable entry before it has. */
  predicate FirstOfDomain(lib: Library, entries: seq<Raw>, i: nat)
  {
    i < |entries| && Usable(lib, entries[i]) && !Seen(lib, entries, i, Norm(lib, entries[i].domain))
  }

  function Taken(lib: Library, entries: seq<Raw>): nat -> bool { (i: nat) => FirstOfDomain(lib, entries, i) }

  function AsHost(lib: Library, entries: seq<Raw>): (nat, Host) -> bool
  {
    (i: nat, h: Host) => i < |entries| && h == HostOf(lib, entries[i])
  }

  lemma {:induction false} GatherSeen(lib: Library, entries: seq<Raw>, n: nat, d: string)
    requires n <= |entries|
    ensures HasDomain(Gather(lib, entries[..n]), d) <==> Seen(lib, entries, n, d)
  {
    if n > 0 {
      GatherSeen(lib, entries, n - 1, d);
      GatherSnoc(lib, entries, n - 1);
      SeenSnoc(lib, entries, n - 1, d);
      HasDomainSnoc(Gather(lib, entries[..n - 1]), HostOf(lib, entries[n - 1]), d);
    }
  }

  lemma {:induction false} GatherLists(lib: Library, entries: seq<Raw>, n: nat)
    requires n <= |entries|
    ensures Lists(n, Gather(lib, entries[..n]), Taken(lib, entries), AsHost(lib, entries))
  {
    if n == 0 {
      ListsNone(Taken(lib, entries), AsHost(lib, entries));
    } else {
      GatherLists(lib, entries, n - 1);
      GatherStep(lib, entries, n - 1);
      OneMoreHost(lib, entries, n - 1, Gather(lib, entries[..n - 1]), Gather(lib, entries[..n]));
    }
  }

  lemma {:induction false} GatherStep(lib: Library, entries: seq<Raw>, n: nat)
    requires n < |entries|
    ensures var out := Gather(lib, entries[..n]);
            Gather(lib, entries[..n + 1])
              == if FirstOfDomain(lib, entries, n) then out + [HostOf(lib, entries[n])] else out
  {
    GatherSnoc(lib, entries, n);
    GatherSeen(lib, entries, n, Norm(lib, entries[n].domain));
  }

  lemma OneMoreHost(lib: Library, entries: seq<Raw>, n: nat, out: seq<Host>, more: seq<Host>)
    requires n < |entries| && Lists(n, out, Taken(lib, entries), AsHost(lib, entries))
    requires more == if FirstOfDomain(lib, entries, n) then out + [HostOf(lib, entries[n])] else out
    ensures Lists(n + 1, more, Taken(lib, entries), AsHost(lib, entries))
  {
    ListsMore(n, out, Taken(lib, entries), AsHost(lib, entries), HostOf(lib, entries[n]));
  }

  lemma {:induction false} GatherSnoc(lib: Library, entries: seq<Raw>, n: nat)
    requires n < |entries|
    ensures var out, e := Gather(lib, entries[..n]), entries[n];
            Gather(lib, entries[..n + 1])
              == if Usable(lib, e) && !HasDomain(out, Norm(lib, e.domain)) then out + [HostOf(lib, e)] else out
  {
    assert entries[..n + 1][..n] == entries[..n] && entries[..n + 1][n] == entries[n];
  }

  lemma HasDomainSnoc(out: seq<Host>, h: Host, d: string)
    ensures HasDomain(out + [h], d) <==> HasDomain(out, d) || d == h.domain
  {
    if HasDomain(out, d) {
      var i :| 0 <= i < |out| && out[i].domain == d;
      assert (out + [h])[i].domain == d;
    }
    assert (out + [h])[|out|] == h;
  }

  /** The entries with a domain of one length, in order. */
  function OfLength(s: seq<Host>, n: nat): seq<Host>
  {
    if s == [] then []
    else OfLength(s[..|s| - 1], n) + if |s[|s| - 1].domain| == n then [s[|s| - 1]] else []
  }

  lemma {:induction false} OfLengthSnoc(s: seq<Host>, h: Host, n: nat)
    ensures OfLength(s + [h], n) == OfLength(s, n) + if |h.domain| == n then [h] else []
  {
    assert (s + [h])[..|s|] == s;
  }

  lemma {:induction false} InsertKeepsOrder(s: seq<Host>, h: Host, n: nat)
    requires LongestFirst(s)
    ensures OfLength(InsertByLength(s, h), n) == OfLength(s, n) + if |h.domain| == n then [h] else []
  {
    if s == [] {
      OfLengthSnoc([], h, n);
      assert [] + [h] == [h];
    } else {
      var init, last := s[..|s| - 1], s[|s| - 1];
      assert s == init + [last];
      OfLengthSnoc(init, last, n);
      if |last.domain| < |h.domain| {
        InsertKeepsOrder(init, h, n);
        OfLengthSnoc(InsertByLength(init, h), last, n);
      } else {
        OfLengthSnoc(s, h, n);
      }
    }
  }

  /** The last sort is stable: entries of one length stay in the order of their raw keys. */
  lemma {:induction false} SortKeepsOrder(s: seq<Host>, n: nat)
    requires DomainsUnique(s)
    ensures OfLength(SortByLength(s), n) == OfLength(s, n)
  {
    if s != [] {
      SortByLengthSorts(s[..|s| - 1]);
      SortKeepsOrder(s[..|s| - 1], n);
      InsertKeepsOrder(SortByLength(s[..|s| - 1]), s[|s| - 1], n);
    }
  }

  /** The whole table and its order: longest domains first; and the domains of each length in the
      order of their raw keys, each for the first usable key of its normalised domain. */
  lemma NormalizedOrder(lib: Library, raw: seq<Raw>) returns (sorted: seq<Raw>, gathered: seq<Host>)
    requires KeysDistinct(raw)
    ensures StrictlySorted(sorted) && forall x :: x in sorted <==> x in raw
    ensures Lists(|sorted|, gathered, Taken(lib, sorted), AsHost(lib, sorted))
    ensures LongestFirst(Normalized(lib, raw))
    ensures forall n: nat :: OfLength(Normalized(lib, raw), n) == OfLength(gathered, n)
  {
    sorted := SortByKey(raw);
    gathered := Gather(lib, sorted);
    SortByKeySorts(raw);
    GatherLists(lib, sorted, |sorted|);
    assert sorted[..|sorted|] == sorted;
    GatherUnique(lib, sorted);
    SortByLengthSorts(gathered);
    forall n: nat ensures OfLength(SortByLength(gathered), n) == OfLength(gathered, n) {
      SortKeepsOrder(gathered, n);
    }
  }
}
