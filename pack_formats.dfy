/** The table of supported pack formats and the version-range formatter
    (src/pack_formats.rs): format lookup, range selection, version parsing,
    the sorted and deduplicated version list of a set of formats, and the
    collapsing of consecutive versions into "a-b" spans. */
module PackFormats {
  import opened Wrappers
  import opened Text

  /** Rust's `u8`: a pack format number. */
  type u8 = x: int | 0 <= x < 256

  /** PACK_FORMATS: the known formats, in ascending order. */
  const PackFormats: seq<u8> := [48, 57, 61]

  /** PACK_FORMAT_VERSIONS: the game versions of each known format, in
      release order. */
  const PackFormatVersions: map<u8, seq<string>> :=
    map[48 := ["1.21", "1.21.1"], 57 := ["1.21.2", "1.21.3"], 61 := ["1.21.4"]]

  /** get_version_info: the versions of a format, or None for an unknown one. */
  function GetVersionInfo(format: u8): (r: Option<seq<string>>)
    ensures r.Some? <==> format in PackFormats
    ensures r.Some? ==> |r.value| > 0
  {
    if format in PackFormatVersions then Some(PackFormatVersions[format]) else None
  }

  /** is_valid_format: membership in the table. */
  predicate IsValidFormat(format: u8)
    ensures IsValidFormat(format) <==> GetVersionInfo(format).Some?
    ensures IsValidFormat(format) <==> format in {48, 57, 61}
  {
    format in PackFormatVersions
  }

  /** The unit tests of the table: 48 maps to ["1.21", "1.21.1"], 0 is unknown. */
  lemma TableExamples()
    ensures GetVersionInfo(48) == Some(["1.21", "1.21.1"])
    ensures GetVersionInfo(0) == None
    ensures IsValidFormat(48) && !IsValidFormat(0)
  {
  }

  /** The decimal names of the known formats. */
  lemma FormatNames()
    ensures DecimalString(48) == "48" && DecimalString(57) == "57" && DecimalString(61) == "61"
  {
  }

  /** get_formats_string: the known formats, comma separated. */
  function GetFormatsString(): (r: string)
    ensures r == "48, 57, 61"
  {
    FormatNames();
    JoinThree("48", "57", "61", ", ");
    Join([DecimalString(PackFormats[0]), DecimalString(PackFormats[1]), DecimalString(PackFormats[2])], ", ")
  }

  predicate StrictlyIncreasing(s: seq<u8>) {
    forall i, j :: 0 <= i < j < |s| ==> s[i] < s[j]
  }

  /** The elements of `s` within [min, max], in their order in `s`. */
  function FilterRange(s: seq<u8>, min: u8, max: u8): (r: seq<u8>)
    ensures forall f :: f in r <==> f in s && min <= f <= max
    ensures |r| <= |s|
    ensures StrictlyIncreasing(s) ==> StrictlyIncreasing(r)
    decreases |s|
  {
    if |s| == 0 then []
    else
      var rest := FilterRange(s[1..], min, max);
      assert forall f :: f in s <==> f == s[0] || f in s[1..];
      if min <= s[0] <= max then
        var r := [s[0]] + rest;
        assert StrictlyIncreasing(s) ==> forall k :: 0 <= k < |rest| ==> s[0] < rest[k] by {
          if StrictlyIncreasing(s) {
            forall k | 0 <= k < |rest| ensures s[0] < rest[k] {
              assert rest[k] in s[1..];
              var m :| 1 <= m < |s| && s[m] == rest[k];
            }
          }
        }
        r
      else
        rest
  }

  /** get_formats_in_range: the known formats f with min <= f <= max. */
  function GetFormatsInRange(min: u8, max: u8): (r: seq<u8>)
    ensures forall f :: f in r <==> f in PackFormats && min <= f <= max
    ensures StrictlyIncreasing(r)
    ensures min > max ==> r == []
  {
    assert StrictlyIncreasing(PackFormats);
    FilterRange(PackFormats, min, max)
  }

  /** The unit test of get_formats_in_range. */
  lemma FormatsInRangeExample()
    ensures GetFormatsInRange(48, 61) == [48, 57, 61]
  {
  }

  // ---------------------------------------------------------------------
  // Version strings

  /** Each piece parsed as u32, 0 when it does not parse. */
  function ParsePieces(pieces: seq<string>): (cs: seq<u32>)
    ensures |cs| == |pieces|
    ensures forall k :: 0 <= k < |pieces| ==> cs[k] == ParseU32(pieces[k]).GetOr(0)
    decreases |pieces|
  {
    if |pieces| == 0 then [] else [ParseU32(pieces[0]).GetOr(0)] + ParsePieces(pieces[1..])
  }

  /** The '.'-separated pieces of a version, parsed. */
  function Components(version: string): (cs: seq<u32>)
    ensures |cs| == |Split(version, '.')|
  {
    ParsePieces(Split(version, '.'))
  }

  /** `parts` extended with zeros up to length n. */
  function PadZeros(parts: seq<u32>, n: nat): (r: seq<u32>)
    ensures |r| == Max(|parts|, n)
    ensures r[..|parts|] == parts
    ensures forall k :: |parts| <= k < |r| ==> r[k] == 0
    decreases n - |parts|
  {
    if |parts| >= n then parts
    else
      var r := PadZeros(parts + [0], n);
      assert r[..|parts|] == r[..|parts| + 1][..|parts|];
      r
  }

  /** What parse_version returns: the components, padded with zeros to at
      least three. */
  function VersionParts(version: string): seq<u32> {
    PadZeros(Components(version), 3)
  }

  /** What parse_version computes: one component per '.'-separated piece,
      the piece's value when it is a u32 and 0 otherwise, followed by zeros
      up to three components. */
  lemma VersionPartsMeaning(version: string)
    ensures |VersionParts(version)| == Max(|Split(version, '.')|, 3)
    ensures forall k :: 0 <= k < |Split(version, '.')| ==>
      VersionParts(version)[k] == ParseU32(Split(version, '.')[k]).GetOr(0)
    ensures forall k :: |Split(version, '.')| <= k < |VersionParts(version)| ==> VersionParts(version)[k] == 0
  {
    var cs := Components(version);
    var parts := VersionParts(version);
    assert parts[..|cs|] == cs;
    assert forall k :: 0 <= k < |cs| ==> parts[k] == parts[..|cs|][k];
  }

  /** parse_version: splits on '.', maps a piece that is not a u32 to 0 and
      appends zeros while there are fewer than three components. */
  method ParseVersion(version: string) returns (parts: seq<u32>)
    ensures parts == VersionParts(version)
  {
    parts := Components(version);
    while |parts| < 3
      invariant PadZeros(parts, 3) == VersionParts(version)
      decreases 3 - |parts|
    {
      parts := parts + [0];
    }
  }

  predicate AllDigits(s: string) {
    |s| > 0 && forall k :: 0 <= k < |s| ==> IsDigit(s[k])
  }

  lemma ParseDigits(s: string)
    requires AllDigits(s) && DigitsValue(s) <= U32Max
    ensures ParseU32(s) == Some(DigitsValue(s))
  {
    assert s[0] != '+';
  }

  lemma DotFree(s: string)
    requires AllDigits(s)
    ensures '.' !in s
  {
  }

  /** A version "a.b" with numeric pieces parses to [a, b, 0]. */
  lemma VersionPartsTwo(a: string, b: string)
    requires AllDigits(a) && DigitsValue(a) <= U32Max
    requires AllDigits(b) && DigitsValue(b) <= U32Max
    ensures VersionParts(a + "." + b) == [DigitsValue(a), DigitsValue(b), 0]
  {
    DotFree(a);
    DotFree(b);
    SplitJoin([a, b], '.');
    assert Join([a, b], ".") == a + "." + b;
    ParseDigits(a);
    ParseDigits(b);
    assert ParsePieces([a, b]) == [DigitsValue(a), DigitsValue(b)];
  }

  lemma JoinThree(a: string, b: string, c: string, sep: string)
    ensures Join([a, b, c], sep) == a + sep + b + sep + c
  {
    assert [a, b, c][1..] == [b, c];
    assert [b, c][1..] == [c];
    assert Join([b, c], sep) == b + sep + c;
    assert Join([a, b, c], sep) == a + sep + (b + sep + c);
  }

  /** A version "a.b.c" with numeric pieces parses to [a, b, c]. */
  lemma VersionPartsThree(a: string, b: string, c: string)
    requires AllDigits(a) && DigitsValue(a) <= U32Max
    requires AllDigits(b) && DigitsValue(b) <= U32Max
    requires AllDigits(c) && DigitsValue(c) <= U32Max
    ensures VersionParts(a + "." + b + "." + c) == [DigitsValue(a), DigitsValue(b), DigitsValue(c)]
  {
    DotFree(a);
    DotFree(b);
    DotFree(c);
    SplitJoin([a, b, c], '.');
    JoinThree(a, b, c, ".");
    ParsePiecesThree(a, b, c);
  }

  lemma ParsePiecesThree(a: string, b: string, c: string)
    requires AllDigits(a) && DigitsValue(a) <= U32Max
    requires AllDigits(b) && DigitsValue(b) <= U32Max
    requires AllDigits(c) && DigitsValue(c) <= U32Max
    ensures ParsePieces([a, b, c]) == [DigitsValue(a), DigitsValue(b), DigitsValue(c)]
  {
    ParseDigits(a);
    ParseDigits(b);
    ParseDigits(c);
  }

  lemma SmallDigits()
    ensures AllDigits("1") && DigitsValue("1") == 1
    ensures AllDigits("21") && DigitsValue("21") == 21
    ensures forall d :: '0' <= d <= '9' ==> AllDigits([d]) && DigitsValue([d]) == DigitValue(d)
  {
    assert "21"[..1] == "2";
    forall d | '0' <= d <= '9'
      ensures DigitsValue([d]) == DigitValue(d)
    {
      assert [d][..0] == "";
    }
  }

  /** The unit tests of parse_version: "1.21" and "1.21.1"; the other
      versions of the table follow. (Each version is passed as a parameter
      equal to the literal.) */
  lemma VersionParts121(v: string)
    requires v == "1.21"
    ensures VersionParts(v) == [1, 21, 0]
  {
    SmallDigits();
    VersionPartsTwo("1", "21");
    assert v == "1" + "." + "21";
  }

  lemma VersionParts1211(v: string)
    requires v == "1.21.1"
    ensures VersionParts(v) == [1, 21, 1]
  {
    SmallDigits();
    VersionPartsThree("1", "21", "1");
    assert v == "1" + "." + "21" + "." + "1";
  }

  lemma VersionParts1212(v: string)
    requires v == "1.21.2"
    ensures VersionParts(v) == [1, 21, 2]
  {
    SmallDigits();
    VersionPartsThree("1", "21", "2");
    assert v == "1" + "." + "21" + "." + "2";
  }

  lemma VersionParts1214(v: string)
    requires v == "1.21.4"
    ensures VersionParts(v) == [1, 21, 4]
  {
    SmallDigits();
    VersionPartsThree("1", "21", "4");
    assert v == "1" + "." + "21" + "." + "4";
  }

  // ---------------------------------------------------------------------
  // Ordering, sorting and deduplication

  /** The ordering of Rust's `Vec<u32>`: lexicographic, a proper prefix
      before its extensions. */
  predicate LexLe(a: seq<u32>, b: seq<u32>)
    decreases |a|
  {
    |a| == 0 || (|b| > 0 && (a[0] < b[0] || (a[0] == b[0] && LexLe(a[1..], b[1..]))))
  }

  lemma {:induction false} LexLeTotal(a: seq<u32>, b: seq<u32>)
    ensures LexLe(a, b) || LexLe(b, a)
    decreases |a|
  {
    if |a| > 0 && |b| > 0 && a[0] == b[0] {
      LexLeTotal(a[1..], b[1..]);
    }
  }

  lemma {:induction false} LexLeTrans(a: seq<u32>, b: seq<u32>, c: seq<u32>)
    requires LexLe(a, b) && LexLe(b, c)
    ensures LexLe(a, c)
    decreases |a|
  {
    if |a| > 0 && a[0] == b[0] && b[0] == c[0] {
      LexLeTrans(a[1..], b[1..], c[1..]);
    }
  }

  /** Adjacent elements are in order of their keys. */
  predicate SortedBy(s: seq<string>, key: string -> seq<u32>) {
    forall k :: 0 <= k < |s| - 1 ==> LexLe(key(s[k]), key(s[k + 1]))
  }

  /** The order get_version_range sorts into: by parsed components. */
  predicate SortedByVersion(s: seq<string>) {
    SortedBy(s, VersionParts)
  }

  /** Inserts x after every element whose key is not greater than x's,
      which is where a stable sort puts the last element. */
  function Insert(x: string, s: seq<string>, key: string -> seq<u32>): (r: seq<string>)
    ensures multiset(r) == multiset(s) + multiset{x}
    ensures |r| > 0 && (r[0] == x || (|s| > 0 && r[0] == s[0]))
    decreases |s|
  {
    if |s| == 0 then [x]
    else if LexLe(key(s[0]), key(x)) then
      var rest := Insert(x, s[1..], key);
      assert s == [s[0]] + s[1..];
      [s[0]] + rest
    else
      [x] + s
  }

  /** Inserting into a sorted sequence keeps it sorted. */
  lemma {:induction false} InsertSorted(x: string, s: seq<string>, key: string -> seq<u32>)
    requires SortedBy(s, key)
    ensures SortedBy(Insert(x, s, key), key)
    decreases |s|
  {
    if |s| > 0 {
      var r := Insert(x, s, key);
      if LexLe(key(s[0]), key(x)) {
        var tail := s[1..];
        forall k | 0 <= k < |tail| - 1
          ensures LexLe(key(tail[k]), key(tail[k + 1]))
        {
          assert tail[k] == s[k + 1] && tail[k + 1] == s[k + 2];
        }
        InsertSorted(x, tail, key);
        var rest := Insert(x, tail, key);
        assert r == [s[0]] + rest;
        assert LexLe(key(s[0]), key(rest[0])) by {
          if rest[0] != x {
            assert rest[0] == s[1];
          }
        }
        forall k | 0 <= k < |r| - 1
          ensures LexLe(key(r[k]), key(r[k + 1]))
        {
          if k > 0 {
            assert r[k] == rest[k - 1] && r[k + 1] == rest[k];
          }
        }
      } else {
        LexLeTotal(key(s[0]), key(x));
        assert r == [x] + s;
        forall k | 0 <= k < |r| - 1
          ensures LexLe(key(r[k]), key(r[k + 1]))
        {
          if k > 0 {
            assert r[k] == s[k - 1] && r[k + 1] == s[k];
          }
        }
      }
    }
  }

  /** Rust's stable `sort_by` comparing keys: the insertion sort gives the
      one stable ordering. */
  function SortBy(s: seq<string>, key: string -> seq<u32>): (r: seq<string>)
    ensures multiset(r) == multiset(s)
    ensures SortedBy(r, key)
    decreases |s|
  {
    if |s| == 0 then []
    else
      assert s == s[..|s| - 1] + [s[|s| - 1]];
      InsertSorted(s[|s| - 1], SortBy(s[..|s| - 1], key), key);
      Insert(s[|s| - 1], SortBy(s[..|s| - 1], key), key)
  }

  /** Vec::dedup: drops every element equal to the one before it. */
  function Dedup(s: seq<string>, key: string -> seq<u32>): (r: seq<string>)
    ensures |r| <= |s|
    ensures |s| > 0 ==> |r| > 0 && r[0] == s[0]
    ensures forall v :: v in r <==> v in s
    ensures forall k :: 0 <= k < |r| - 1 ==> r[k] != r[k + 1]
    ensures SortedBy(s, key) ==> SortedBy(r, key)
    decreases |s|
  {
    if |s| <= 1 then s
    else
      assert forall v :: v in s <==> v == s[0] || v in s[1..];
      if s[0] == s[1] then Dedup(s[1..], key)
      else [s[0]] + Dedup(s[1..], key)
  }

  /** The number of neighbouring pairs of s that differ. */
  function Changes(s: seq<string>): nat
    decreases |s|
  {
    if |s| <= 1 then 0 else (if s[0] != s[1] then 1 else 0) + Changes(s[1..])
  }

  /** Dedup keeps one element per run of equal neighbours and nothing
      else: the result has one element more than s has changes, and the
      element at index k of s is found at the index of its run, which is
      the number of changes up to k. So only adjacent repeats go, and a
      value that comes back after a different one is kept again. */
  lemma {:induction false} DedupRuns(s: seq<string>, key: string -> seq<u32>, k: nat)
    requires k < |s|
    ensures |Dedup(s, key)| == Changes(s) + 1
    ensures Changes(s[..k + 1]) <= Changes(s)
    ensures Dedup(s, key)[Changes(s[..k + 1])] == s[k]
    decreases |s|
  {
    if |s| == 1 {
      assert s[..k + 1] == s;
    } else {
      var t := s[1..];
      var d := if s[0] != s[1] then 1 else 0;
      if k == 0 {
        DedupRuns(t, key, 0);
      } else {
        DedupRuns(t, key, k - 1);
        assert s[..k + 1][1..] == t[..k];
        assert Changes(s[..k + 1]) == d + Changes(t[..k]);
      }
    }
  }

  /** The versions of the known formats among `formats`, in input order. */
  function CollectVersions(formats: seq<u8>): (vs: seq<string>)
    ensures forall v :: v in vs <==>
      exists k :: 0 <= k < |formats| && formats[k] in PackFormatVersions && v in PackFormatVersions[formats[k]]
    decreases |formats|
  {
    if |formats| == 0 then []
    else
      var init := formats[..|formats| - 1];
      var last := formats[|formats| - 1];
      var rest := CollectVersions(init);
      assert forall k :: 0 <= k < |init| ==> init[k] == formats[k];
      rest + (if last in PackFormatVersions then PackFormatVersions[last] else [])
  }

  /** What get_version_range returns for `formats`. */
  function VersionRange(formats: seq<u8>): seq<string> {
    Dedup(SortBy(CollectVersions(formats), VersionParts), VersionParts)
  }

  /** get_version_range: the versions of every known format in `formats`
      (unknown formats contribute nothing), sorted by their parsed
      components, with adjacent repeats removed. */
  method GetVersionRange(formats: seq<u8>) returns (versions: seq<string>)
    ensures forall v :: v in versions <==>
      exists k :: 0 <= k < |formats| && IsValidFormat(formats[k]) && v in PackFormatVersions[formats[k]]
    ensures SortedByVersion(versions)
    ensures forall k :: 0 <= k < |versions| - 1 ==> versions[k] != versions[k + 1]
    ensures versions == VersionRange(formats)
  {
    versions := GatherVersions(formats);
    var all := versions;
    versions := SortBy(versions, VersionParts);
    assert forall v :: v in versions <==> v in multiset(versions);
    assert forall v :: v in all <==> v in multiset(all);
    versions := Dedup(versions, VersionParts);
  }

  /** The loop of get_version_range: the versions of each known format,
      appended in input order. */
  method GatherVersions(formats: seq<u8>) returns (versions: seq<string>)
    ensures versions == CollectVersions(formats)
  {
    versions := [];
    for i := 0 to |formats|
      invariant versions == CollectVersions(formats[..i])
    {
      assert formats[..i + 1][..i] == formats[..i];
      match GetVersionInfo(formats[i]) {
        case Some(info) =>
          versions := versions + info;
        case None =>
      }
    }
    assert formats[..|formats|] == formats;
  }

  /** Stable sorting leaves a sorted sequence as it is. */
  lemma {:induction false} SortBySorted(s: seq<string>, key: string -> seq<u32>)
    requires SortedBy(s, key)
    ensures SortBy(s, key) == s
    decreases |s|
  {
    if |s| > 0 {
      var init, x := s[..|s| - 1], s[|s| - 1];
      assert s == init + [x];
      assert SortBy(s, key) == Insert(x, SortBy(init, key), key);
      assert SortedBy(init, key);
      SortBySorted(init, key);
      forall k | 0 <= k < |init|
        ensures LexLe(key(init[k]), key(x))
      {
        SortedPrefixBelowLast(s, key, k);
      }
      InsertAtEnd(x, init, key);
    }
  }

  lemma {:induction false} SortedPrefixBelowLast(s: seq<string>, key: string -> seq<u32>, k: nat)
    requires SortedBy(s, key) && k < |s|
    ensures LexLe(key(s[k]), key(s[|s| - 1]))
    decreases |s| - k
  {
    if k < |s| - 1 {
      SortedPrefixBelowLast(s, key, k + 1);
      LexLeTrans(key(s[k]), key(s[k + 1]), key(s[|s| - 1]));
    } else {
      LexLeRefl(key(s[k]));
    }
  }

  lemma {:induction false} LexLeRefl(a: seq<u32>)
    ensures LexLe(a, a)
    decreases |a|
  {
    if |a| > 0 {
      LexLeRefl(a[1..]);
    }
  }

  /** An element not below anything already there is inserted last. */
  lemma {:induction false} InsertAtEnd(x: string, s: seq<string>, key: string -> seq<u32>)
    requires forall k :: 0 <= k < |s| ==> LexLe(key(s[k]), key(x))
    ensures Insert(x, s, key) == s + [x]
    decreases |s|
  {
    if |s| > 0 {
      assert LexLe(key(s[0]), key(x));
      var tail := s[1..];
      forall k | 0 <= k < |tail|
        ensures LexLe(key(tail[k]), key(x))
      {
        assert tail[k] == s[k + 1];
      }
      InsertAtEnd(x, tail, key);
      assert Insert(x, s, key) == [s[0]] + Insert(x, tail, key);
      assert s == [s[0]] + tail;
      AppendAssoc([s[0]], tail, [x]);
    }
  }

  /** Dedup leaves a sequence without adjacent repeats as it is. */
  lemma {:induction false} DedupDistinct(s: seq<string>, key: string -> seq<u32>)
    requires forall k :: 0 <= k < |s| - 1 ==> s[k] != s[k + 1]
    ensures Dedup(s, key) == s
    decreases |s|
  {
    if |s| > 1 {
      DedupDistinct(s[1..], key);
    }
  }

  /** Sorting and deduplicating leave alone a sorted sequence without
      adjacent repeats. */
  lemma SortDedupFixed(s: seq<string>, key: string -> seq<u32>)
    requires SortedBy(s, key)
    requires forall k :: 0 <= k < |s| - 1 ==> s[k] != s[k + 1]
    ensures Dedup(SortBy(s, key), key) == s
  {
    SortBySorted(s, key);
    DedupDistinct(s, key);
  }

  /** The versions of two formats, in order. */
  lemma CollectTwo(f: u8, g: u8)
    ensures CollectVersions([f, g]) ==
      (if f in PackFormatVersions then PackFormatVersions[f] else [])
      + (if g in PackFormatVersions then PackFormatVersions[g] else [])
  {
    assert [f, g][..1] == [f];
    assert [f][..0] == [];
    assert CollectVersions([f]) == (if f in PackFormatVersions then PackFormatVersions[f] else []);
  }

  /** The versions of the unit test are already in order. */
  lemma SortedExample(a: string, b: string, c: string)
    requires a == "1.21" && b == "1.21.1" && c == "1.21.4"
    ensures SortedBy([a, b, c], VersionParts)
  {
    VersionParts121(a);
    VersionParts1211(b);
    VersionParts1214(c);
    assert LexLe([1, 21, 0], [1, 21, 1]) && LexLe([1, 21, 1], [1, 21, 4]);
    assert [a, b, c][0] == a && [a, b, c][1] == b && [a, b, c][2] == c;
  }

  lemma CollectExample(formats: seq<u8>, a: string, b: string, c: string)
    requires formats == [48, 61] && a == "1.21" && b == "1.21.1" && c == "1.21.4"
    ensures CollectVersions(formats) == [a, b, c]
  {
    CollectTwo(formats[0], formats[1]);
  }

  /** The unit test of get_version_range: formats 48 and 61 (passed as
      parameters equal to the test's values). */
  lemma VersionRangeExample(formats: seq<u8>, a: string, b: string, c: string)
    requires formats == [48, 61] && a == "1.21" && b == "1.21.1" && c == "1.21.4"
    ensures VersionRange(formats) == [a, b, c]
  {
    CollectExample(formats, a, b, c);
    SortedExample(a, b, c);
    SortDedupFixed([a, b, c], VersionParts);
  }

  // ---------------------------------------------------------------------
  // Consecutive versions

  /** The last index below k where p and c differ. */
  function LastDiff(p: seq<u32>, c: seq<u32>, k: nat): (r: Option<nat>)
    requires k <= |p| && k <= |c|
    ensures r.Some? ==> r.value < k && p[r.value] != c[r.value]
    ensures r.Some? ==> forall i :: r.value < i < k ==> p[i] == c[i]
    ensures r.None? ==> forall i :: 0 <= i < k ==> p[i] == c[i]
  {
    if k == 0 then None
    else if p[k - 1] != c[k - 1] then Some(k - 1)
    else LastDiff(p, c, k - 1)
  }

  lemma {:induction false} LastDiffIs(p: seq<u32>, c: seq<u32>, k: nat, j: nat)
    requires j < k <= |p| && k <= |c|
    requires p[j] != c[j] && forall i :: j < i < k ==> p[i] == c[i]
    ensures LastDiff(p, c, k) == Some(j)
    decreases k
  {
    if j < k - 1 {
      LastDiffIs(p, c, k - 1, j);
    }
  }

  /** Subtraction of u32 values as a release build computes it. */
  function WrappingSub32(a: u32, b: u32): u32 {
    if a >= b then a - b else a - b + 0x1_0000_0000
  }

  /** The consecutiveness test of format_version_range: over the components
      the two lists share, the rightmost pair that differs must differ by
      one. */
  predicate Consecutive(p: seq<u32>, c: seq<u32>) {
    var d := LastDiff(p, c, Min(|p|, |c|));
    d.Some? && WrappingSub32(c[d.value], p[d.value]) == 1
  }

  /** Consecutive p c holds exactly when some shared position j differs, all
      shared positions after j agree, and c[j] is p[j] + 1 (or wraps from the
      largest u32 to 0, as the release build's subtraction does). */
  lemma ConsecutiveMeaning(p: seq<u32>, c: seq<u32>)
    ensures Consecutive(p, c) <==>
      exists j :: 0 <= j < Min(|p|, |c|) && p[j] != c[j]
        && (forall i :: j < i < Min(|p|, |c|) ==> p[i] == c[i])
        && (c[j] as int == p[j] as int + 1 || (p[j] == U32Max && c[j] == 0))
  {
    var m := Min(|p|, |c|);
    forall j | 0 <= j < m && p[j] != c[j] && (forall i :: j < i < m ==> p[i] == c[i])
      ensures LastDiff(p, c, m) == Some(j)
    {
      LastDiffIs(p, c, m, j);
    }
  }

  /** A version is never consecutive to itself. */
  lemma NotSelfConsecutive(p: seq<u32>)
    ensures !Consecutive(p, p)
  {
  }

  // ---------------------------------------------------------------------
  // Collapsing runs

  /** The versions at k - 1 and k are linked. */
  predicate LinkedAt(vs: seq<string>, linked: (string, string) -> bool, k: nat)
    requires 0 < k < |vs|
  {
    linked(vs[k - 1], vs[k])
  }

  /** The index where the maximal run of linked neighbours that begins at i
      ends. */
  function RunEnd(vs: seq<string>, linked: (string, string) -> bool, i: nat): (e: nat)
    requires i < |vs|
    ensures i <= e < |vs|
    ensures forall k :: i < k <= e ==> LinkedAt(vs, linked, k)
    ensures e + 1 < |vs| ==> !linked(vs[e], vs[e + 1])
    decreases |vs| - i
  {
    if i + 1 < |vs| && linked(vs[i], vs[i + 1]) then RunEnd(vs, linked, i + 1) else i
  }

  /** A run ends where the consecutive chain from its start breaks. */
  lemma {:induction false} RunEndAt(vs: seq<string>, linked: (string, string) -> bool, start: nat, e: nat)
    requires start <= e < |vs|
    requires forall k :: start < k <= e ==> LinkedAt(vs, linked, k)
    requires e + 1 == |vs| || !linked(vs[e], vs[e + 1])
    ensures RunEnd(vs, linked, start) == e
    decreases e - start
  {
    if start < e {
      assert LinkedAt(vs, linked, start + 1);
      RunEndAt(vs, linked, start + 1, e);
    }
  }

  /** Two versions whose parsed components are consecutive. */
  predicate VersionsConsecutive(a: string, b: string) {
    Consecutive(VersionParts(a), VersionParts(b))
  }

  function TrimZero(v: string): string {
    TrimEndMatches(v, ".0")
  }

  /** How one run from `first` to `last` is printed: "first-last" with
      trailing ".0" removed from both, a single version as itself, trimmed
      only when it is the final run. */
  function RenderRun(first: string, last: string, isFinal: bool): string {
    if last == first then (if isFinal then TrimZero(first) else first)
    else TrimZero(first) + "-" + TrimZero(last)
  }

  /** The printed runs of vs from index i on, one per maximal run. */
  function RangesFrom(vs: seq<string>, linked: (string, string) -> bool, i: nat): seq<string>
    decreases |vs| - i
  {
    if i >= |vs| then []
    else
      var e := RunEnd(vs, linked, i);
      [RenderRun(vs[i], vs[e], e == |vs| - 1)] + RangesFrom(vs, linked, e + 1)
  }

  /** The groups format_version_range prints for `vs`. */
  function Ranges(vs: seq<string>): seq<string> {
    RangesFrom(vs, VersionsConsecutive, 0)
  }

  /** A run that reaches i - 1 reaches i when vs[i - 1] and vs[i] are
      linked. */
  lemma {:induction false} RunEndExtends(vs: seq<string>, linked: (string, string) -> bool, start: nat, i: nat)
    requires start < i < |vs|
    requires RunEnd(vs, linked, start) >= i - 1
    requires linked(vs[i - 1], vs[i])
    ensures RunEnd(vs, linked, start) >= i
    decreases i - start
  {
    if start < i - 1 {
      RunEndExtends(vs, linked, start + 1, i);
    }
  }

  /** Where the run from `start` reaches i - 1 but vs[i - 1] and vs[i] are
      not linked, the run from `start` is printed first and the rest from i
      on. */
  lemma {:induction false} RangesAtBreak(vs: seq<string>, linked: (string, string) -> bool, start: nat, i: nat)
    requires start < i < |vs|
    requires RunEnd(vs, linked, start) >= i - 1
    requires !linked(vs[i - 1], vs[i])
    ensures RangesFrom(vs, linked, start) == [RenderRun(vs[start], vs[i - 1], false)] + RangesFrom(vs, linked, i)
  {
    RunEndAtBreak(vs, linked, start, i);
    RangesFromInner(vs, linked, start, i - 1, i);
  }

  /** A run that reaches i - 1 ends there when vs[i - 1] and vs[i] are not
      linked. */
  lemma RunEndAtBreak(vs: seq<string>, linked: (string, string) -> bool, start: nat, i: nat)
    requires start < i < |vs|
    requires RunEnd(vs, linked, start) >= i - 1
    requires !linked(vs[i - 1], vs[i])
    ensures RunEnd(vs, linked, start) == i - 1
  {
    assert i <= RunEnd(vs, linked, start) ==> LinkedAt(vs, linked, i);
  }

  /** A run that stops before the last version is printed as a non-final
      run. */
  lemma RangesFromInner(vs: seq<string>, linked: (string, string) -> bool, i: nat, e: nat, next: nat)
    requires i < |vs| && e == RunEnd(vs, linked, i) && next == e + 1 < |vs|
    ensures RangesFrom(vs, linked, i) == [RenderRun(vs[i], vs[e], false)] + RangesFrom(vs, linked, next)
  {
    RangesFromStep(vs, linked, i);
  }

  /** One step of RangesFrom at an index inside vs. */
  lemma RangesFromStep(vs: seq<string>, linked: (string, string) -> bool, i: nat)
    requires i < |vs|
    ensures RangesFrom(vs, linked, i)
      == [RenderRun(vs[i], vs[RunEnd(vs, linked, i)], RunEnd(vs, linked, i) == |vs| - 1)]
         + RangesFrom(vs, linked, RunEnd(vs, linked, i) + 1)
  {
  }

  lemma AppendAssoc(a: seq<string>, b: seq<string>, c: seq<string>)
    ensures a + b + c == a + (b + c)
  {
  }

  /** Closing the run that began at `start` at a break before i keeps the
      loop invariant of format_version_range. */
  lemma RangesBreakStep(vs: seq<string>, start: nat, i: nat, ranges: seq<string>)
    requires start < i < |vs|
    requires RunEnd(vs, VersionsConsecutive, start) >= i - 1
    requires !VersionsConsecutive(vs[i - 1], vs[i])
    requires ranges + RangesFrom(vs, VersionsConsecutive, start) == Ranges(vs)
    ensures ranges + [RenderRun(vs[start], vs[i - 1], false)] + RangesFrom(vs, VersionsConsecutive, i) == Ranges(vs)
  {
    RangesAtBreak(vs, VersionsConsecutive, start, i);
    AppendAssoc(ranges, [RenderRun(vs[start], vs[i - 1], false)], RangesFrom(vs, VersionsConsecutive, i));
  }

  /** The consecutiveness test in the loop of format_version_range, on
      freshly parsed components. */
  method IsConsecutive(prev: string, version: string) returns (consecutive: bool)
    ensures consecutive <==> VersionsConsecutive(prev, version)
  {
    var prevParts := ParseVersion(prev);
    var currParts := ParseVersion(version);
    consecutive := Consecutive(prevParts, currParts);
  }

  /** format_version_range: "" for no versions; otherwise one printed group
      per maximal run of consecutive versions, joined by ", ". */
  method FormatVersionRange(versions: seq<string>) returns (r: string)
    ensures r == Join(Ranges(versions), ", ")
    ensures |versions| == 0 ==> r == ""
  {
    if |versions| == 0 {
      return "";
    }
    var ranges: seq<string> := [];
    var rangeStart := versions[0];
    var prev := versions[0];
    ghost var start := 0;
    for i := 1 to |versions|
      invariant start < i
      invariant rangeStart == versions[start] && prev == versions[i - 1]
      invariant RunEnd(versions, VersionsConsecutive, start) >= i - 1
      invariant ranges + RangesFrom(versions, VersionsConsecutive, start) == Ranges(versions)
    {
      var version := versions[i];
      var consecutive := IsConsecutive(prev, version);
      if !consecutive {
        var group;
        if prev == rangeStart {
          group := rangeStart;
        } else {
          group := TrimZero(rangeStart) + "-" + TrimZero(prev);
        }
        assert group == RenderRun(rangeStart, prev, false);
        RangesBreakStep(versions, start, i, ranges);
        ranges := ranges + [group];
        rangeStart := version;
        start := i;
      } else {
        RunEndExtends(versions, VersionsConsecutive, start, i);
      }
      prev := version;
    }
    assert RangesFrom(versions, VersionsConsecutive, start) == [RenderRun(rangeStart, prev, true)];
    var group;
    if prev == rangeStart {
      group := TrimZero(rangeStart);
    } else {
      group := TrimZero(rangeStart) + "-" + TrimZero(prev);
    }
    assert group == RenderRun(rangeStart, prev, true);
    ranges := ranges + [group];
    r := Join(ranges, ", ");
  }

  /** The number of adjacent pairs from index i on that are not linked
      consecutive. */
  function BreaksFrom(vs: seq<string>, linked: (string, string) -> bool, i: nat): nat
    decreases |vs| - i
  {
    if i + 1 >= |vs| then 0
    else (if linked(vs[i], vs[i + 1]) then 0 else 1) + BreaksFrom(vs, linked, i + 1)
  }

  lemma {:induction false} BreaksWithinRun(vs: seq<string>, linked: (string, string) -> bool, i: nat, e: nat)
    requires i <= e < |vs|
    requires forall k :: i < k <= e ==> LinkedAt(vs, linked, k)
    ensures BreaksFrom(vs, linked, i) == BreaksFrom(vs, linked, e)
    decreases e - i
  {
    if i < e {
      assert LinkedAt(vs, linked, i + 1);
      BreaksWithinRun(vs, linked, i + 1, e);
    }
  }

  /** There is one printed group more than there are breaks between
      adjacent versions. */
  lemma {:induction false} GroupCount(vs: seq<string>, linked: (string, string) -> bool, i: nat)
    requires i < |vs|
    ensures |RangesFrom(vs, linked, i)| == 1 + BreaksFrom(vs, linked, i)
    decreases |vs| - i
  {
    var e := RunEnd(vs, linked, i);
    BreaksWithinRun(vs, linked, i, e);
    if e + 1 < |vs| {
      GroupCount(vs, linked, e + 1);
    }
  }

  /** Which neighbours of the unit tests are consecutive. */
  lemma TableConsecutive(v0: string, v1: string, v2: string, v4: string)
    requires v0 == "1.21" && v1 == "1.21.1" && v2 == "1.21.2" && v4 == "1.21.4"
    ensures VersionsConsecutive(v0, v1)
    ensures VersionsConsecutive(v1, v2)
    ensures !VersionsConsecutive(v2, v4)
  {
    VersionParts121(v0);
    VersionParts1211(v1);
    VersionParts1212(v2);
    VersionParts1214(v4);
    LastDiffIs([1, 21, 0], [1, 21, 1], 3, 2);
    LastDiffIs([1, 21, 1], [1, 21, 2], 3, 2);
    LastDiffIs([1, 21, 2], [1, 21, 4], 3, 2);
  }

  /** A version that does not end in '0' is not trimmed. */
  lemma KeepsLastDigit(v: string)
    requires |v| > 0 && v[|v| - 1] != '0'
    ensures TrimZero(v) == v
  {
    if |v| >= 2 {
      assert v[|v| - 2..][1] == v[|v| - 1];
    }
  }

  lemma RangesOfThree(a: string, b: string, c: string, linked: (string, string) -> bool)
    requires linked(a, b) && linked(b, c)
    ensures RangesFrom([a, b, c], linked, 0) == [RenderRun(a, c, true)]
  {
    RunEndAt([a, b, c], linked, 0, 2);
  }

  lemma RangesOfFour(a: string, b: string, c: string, d: string, linked: (string, string) -> bool)
    requires linked(a, b) && linked(b, c) && !linked(c, d)
    ensures RangesFrom([a, b, c, d], linked, 0) == [RenderRun(a, c, false), RenderRun(d, d, true)]
  {
    RunEndAt([a, b, c, d], linked, 0, 2);
    RunEndAt([a, b, c, d], linked, 3, 3);
    assert RangesFrom([a, b, c, d], linked, 3) == [RenderRun(d, d, true)];
  }

  /** The unit tests of format_version_range (the versions are passed as
      parameters equal to the test's strings). */
  lemma FormatVersionRangeExamples(v0: string, v1: string, v2: string, v4: string)
    requires v0 == "1.21" && v1 == "1.21.1" && v2 == "1.21.2" && v4 == "1.21.4"
    ensures Join(Ranges([v0, v1, v2]), ", ") == v0 + "-" + v2
    ensures Join(Ranges([v0, v1, v2, v4]), ", ") == v0 + "-" + v2 + ", " + v4
    ensures Join(Ranges([]), ", ") == ""
  {
    TableConsecutive(v0, v1, v2, v4);
    RangesOfThree(v0, v1, v2, VersionsConsecutive);
    RangesOfFour(v0, v1, v2, v4, VersionsConsecutive);
    KeepsLastDigit(v0);
    KeepsLastDigit(v2);
    KeepsLastDigit(v4);
    assert RenderRun(v0, v2, true) == v0 + "-" + v2;
    assert RenderRun(v0, v2, false) == v0 + "-" + v2;
    assert RenderRun(v4, v4, true) == v4;
  }
}
