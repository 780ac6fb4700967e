/** The configured padding scheme: `lo-hi` ranges separated by semicolons. */
module PaddingScheme {
  import opened Wrappers
  import opened Bytes
  import opened Ciphers
  import opened Decimals
  import opened Records

  /** Unicode White_Space, which `str::trim` removes. */
  predicate IsSpace(c: char)
  {
    var u := c as int;
    9 <= u <= 13 || u == 0x20 || u == 0x85 || u == 0xA0 || u == 0x1680 || 0x2000 <= u <= 0x200A ||
    u == 0x2028 || u == 0x2029 || u == 0x202F || u == 0x205F || u == 0x3000
  }

  function TrimStart(s: string): string { if s != [] && IsSpace(s[0]) then TrimStart(s[1..]) else s }
  function TrimEnd(s: string): string { if s != [] && IsSpace(s[|s| - 1]) then TrimEnd(s[..|s| - 1]) else s }
  function Trim(s: string): string { TrimEnd(TrimStart(s)) }

  /** Position of the first `c`, or the length. */
  function Find(s: string, c: char): (i: nat)
    ensures i <= |s| && c !in s[..i] && (i < |s| ==> s[i] == c)
  {
    if s == [] || s[0] == c then 0 else
      var i := 1 + Find(s[1..], c);
      assert s[..i] == [s[0]] + s[1..][..i - 1];
      i
  }

  function Split(s: string, c: char): (parts: seq<string>)
    ensures parts != []
    decreases |s|
  {
    var i := Find(s, c);
    if i == |s| then [s] else [s[..i]] + Split(s[i + 1..], c)
  }

  function ParseRange(part: string): Option<Range>
  {
    var i := Find(part, '-');
    if i == |part| then None
    else
      match (ParseUsize(Trim(part[..i])), ParseUsize(Trim(part[i + 1..])))
      case (Some(lo), Some(hi)) =>
        if lo < 1 || lo > hi || hi > MAX_RECORD_SIZE then None else Some(Range(lo, hi))
      case _ => None
  }

  /** What one part between semicolons contributes: nothing if blank, one range, or failure. */
  function PartRanges(part: string): (r: Option<seq<Range>>)
    ensures r.Some? ==> ValidScheme(r.value)
  {
    if Trim(part) == [] then Some([])
    else
      match ParseRange(Trim(part))
      case Some(range) => Some([range])
      case None => None
  }

  function Join(a: Option<seq<Range>>, b: Option<seq<Range>>): Option<seq<Range>>
  {
    if a.Some? && b.Some? then Some(a.value + b.value) else None
  }

  lemma JoinLaws(a: Option<seq<Range>>, b: Option<seq<Range>>, c: Option<seq<Range>>)
    ensures Join(Some([]), a) == a == Join(a, Some([]))
    ensures Join(Join(a, b), c) == Join(a, Join(b, c))
  {
    if a.Some? {
      assert [] + a.value == a.value == a.value + [];
      if b.Some? && c.Some? {
        assert (a.value + b.value) + c.value == a.value + (b.value + c.value);
      }
    }
  }

  /** Concatenates what the parts contribute; one failure fails them all. */
  function Collect(f: string -> Option<seq<Range>>, parts: seq<string>): Option<seq<Range>>
  {
    if parts == [] then Some([])
    else
      Join(f(parts[0]), Collect(f, parts[1..]))
  }

  function ParseScheme(s: string): Option<seq<Range>>
  {
    var r := Collect(PartRanges, Split(s, ';'));
    if r == Some([]) then None else r
  }

  lemma {:induction false} CollectValid(f: string -> Option<seq<Range>>, parts: seq<string>)
    requires forall part :: f(part).Some? ==> ValidScheme(f(part).value)
    ensures var r := Collect(f, parts); r.Some? ==> ValidScheme(r.value)
  {
    if parts != [] {
      CollectValid(f, parts[1..]);
    }
  }

  lemma {:induction false} CollectSplit(f: string -> Option<seq<Range>>, parts: seq<string>, k: nat)
    requires k <= |parts|
    ensures Collect(f, parts) == Join(Collect(f, parts[..k]), Collect(f, parts[k..]))
  {
    if k == 0 {
      JoinLaws(Collect(f, parts), None, None);
    } else {
      JoinLaws(f(parts[0]), Collect(f, parts[1..][..k - 1]), Collect(f, parts[1..][k - 1..]));
      CollectSplit(f, parts[1..], k - 1);
      assert parts[..k][1..] == parts[1..][..k - 1];
      assert parts[k..] == parts[1..][k - 1..];
    }
  }

  lemma CollectCons(f: string -> Option<seq<Range>>, part: string, parts: seq<string>)
    ensures Collect(f, [part] + parts) == Join(f(part), Collect(f, parts))
    ensures Collect(f, [part]) == f(part)
  {
    assert ([part] + parts)[1..] == parts;
    JoinLaws(f(part), None, None);
  }

  lemma {:induction false} CollectNext(f: string -> Option<seq<Range>>, parts: seq<string>, k: nat, done: seq<Range>)
    requires k < |parts| && Collect(f, parts[..k]) == Some(done)
    ensures f(parts[k]).Some? ==> Collect(f, parts[..k + 1]) == Some(done + f(parts[k]).value)
    ensures f(parts[k]).None? ==> Collect(f, parts).None?
  {
    var upto := parts[..k + 1];
    CollectSplit(f, upto, k);
    assert upto[..k] == parts[..k];
    assert upto[k..] == [parts[k]];
    CollectCons(f, parts[k], []);
    CollectSplit(f, parts, k + 1);
  }

  /** `parse_padding_scheme`: whatever it accepts is a non-empty scheme of ranges within
      1..=16384, so every target drawn from it gives a record the reader admits. */
  method ParsePaddingScheme(s: string) returns (r: Option<seq<Range>>)
    ensures r == ParseScheme(s)
    ensures r.Some? ==> r.value != [] && ValidScheme(r.value)
  {
    var out: seq<Range> := [];
    var parts := Split(s, ';');
    CollectValid(PartRanges, parts);
    for k := 0 to |parts|
      invariant Collect(PartRanges, parts[..k]) == Some(out)
    {
      CollectNext(PartRanges, parts, k, out);
      var part := Trim(parts[k]);
      assert out + [] == out;
      if part != [] {
        var range := ParseRange(part);
        if range.None? {
          return None;
        }
        out := out + [range.value];
      }
    }
    assert parts[..|parts|] == parts;
    r := if out == [] then None else Some(out);
  }

  // ---------------------------------------------------------- the round trip

  function PrintRange(range: Range): string { Print(range.lo) + "-" + Print(range.hi) }

  function JoinParts(parts: seq<string>): string
    requires parts != []
  {
    if |parts| == 1 then parts[0] else parts[0] + ";" + JoinParts(parts[1..])
  }

  function PrintScheme(scheme: seq<Range>): string
    requires scheme != []
  {
    JoinParts(seq(|scheme|, i requires 0 <= i < |scheme| => PrintRange(scheme[i])))
  }

  lemma {:induction false} FindFirst(a: string, c: char, b: string)
    requires c !in a
    ensures Find(a + [c] + b, c) == |a|
  {
    if a != [] {
      assert (a + [c] + b)[1..] == a[1..] + [c] + b;
      FindFirst(a[1..], c, b);
    }
  }

  lemma FindNone(a: string, c: char)
    requires c !in a
    ensures Find(a, c) == |a|
  {
  }

  lemma TrimKeepsNumerals(s: string)
    requires s != [] && IsDigit(s[0]) && IsDigit(s[|s| - 1])
    ensures Trim(s) == s
  {
  }

  lemma ParseRangeOf(lo: string, hi: string, range: Range)
    requires '-' !in lo && Trim(lo) == lo && Trim(hi) == hi
    requires ParseUsize(lo) == Some(range.lo) && ParseUsize(hi) == Some(range.hi)
    requires 1 <= range.lo <= range.hi <= MAX_RECORD_SIZE
    ensures ParseRange(lo + "-" + hi) == Some(range)
  {
    FindFirst(lo, '-', hi);
    var s := lo + ['-'] + hi;
    assert s[..|lo|] == lo && s[|lo| + 1..] == hi;
  }

  lemma PartOf(s: string, range: Range)
    requires s != [] && Trim(s) == s && ParseRange(s) == Some(range)
    ensures PartRanges(s) == Some([range])
  {
  }

  lemma RangeRoundTrip(range: Range)
    requires 1 <= range.lo <= range.hi <= MAX_RECORD_SIZE
    ensures PartRanges(PrintRange(range)) == Some([range])
    ensures ';' !in PrintRange(range)
  {
    var lo, hi := Print(range.lo), Print(range.hi);
    var s := lo + "-" + hi;
    TrimKeepsNumerals(lo);
    TrimKeepsNumerals(hi);
    ParsePrint(range.lo);
    ParsePrint(range.hi);
    ParseRangeOf(lo, hi, range);
    assert s[0] == lo[0] && s[|s| - 1] == hi[|hi| - 1];
    TrimKeepsNumerals(s);
    PartOf(s, range);
  }

  lemma SplitFirst(first: string, more: string)
    requires ';' !in first
    ensures Split(first, ';') == [first]
    ensures Split(first + ";" + more, ';') == [first] + Split(more, ';')
  {
    FindNone(first, ';');
    FindFirst(first, ';', more);
    var s := first + [';'] + more;
    assert s[..|first|] == first && s[|first| + 1..] == more;
  }

  /** Splitting undoes joining for parts without a semicolon. */
  lemma {:induction false} SplitJoined(parts: seq<string>)
    requires parts != [] && forall i :: 0 <= i < |parts| ==> ';' !in parts[i]
    ensures Split(JoinParts(parts), ';') == parts
  {
    if |parts| == 1 {
      SplitFirst(parts[0], "");
    } else {
      SplitJoined(parts[1..]);
      SplitFirst(parts[0], JoinParts(parts[1..]));
    }
  }

  lemma {:induction false} CollectEach(f: string -> Option<seq<Range>>, parts: seq<string>, scheme: seq<Range>)
    requires |parts| == |scheme| && forall i :: 0 <= i < |parts| ==> f(parts[i]) == Some([scheme[i]])
    ensures Collect(f, parts) == Some(scheme)
  {
    if parts != [] {
      CollectEach(f, parts[1..], scheme[1..]);
      assert [scheme[0]] + scheme[1..] == scheme;
    }
  }

  /** Printing a scheme and parsing it back gives the scheme, for every scheme the layer can use. */
  lemma SchemeRoundTrip(scheme: seq<Range>)
    requires scheme != [] && ValidScheme(scheme)
    ensures ParseScheme(PrintScheme(scheme)) == Some(scheme)
  {
    var parts := seq(|scheme|, i requires 0 <= i < |scheme| => PrintRange(scheme[i]));
    forall i | 0 <= i < |parts|
      ensures ';' !in parts[i] && PartRanges(parts[i]) == Some([scheme[i]])
    {
      RangeRoundTrip(scheme[i]);
    }
    SplitJoined(parts);
    CollectEach(PartRanges, parts, scheme);
  }

  const DEFAULT_PAD_SCHEME: seq<Range> :=
    [Range(64, 256), Range(256, 800), Range(100, 1400), Range(600, 1200),
     Range(128, 512), Range(900, 1400), Range(64, 700), Range(400, 1400)]

  /** `set_padding_scheme` falls back to the default on an empty list, so the scheme in force is
      always usable. */
  function SchemeInForce(configured: string): (scheme: seq<Range>)
    ensures scheme != [] && ValidScheme(scheme)
  {
    CollectValid(PartRanges, Split(configured, ';'));
    match ParseScheme(configured)
    case Some(s) => s
    case None => DEFAULT_PAD_SCHEME
  }
}
