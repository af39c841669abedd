/** The helpers of src/utils.py: pulling the final answer out of the agent's
    transcript, the vector-existence check and the PDF listing of the data
    directory. */
module Utils {
  import opened Outcomes
  import opened VectorService

  // ---------------------------------------------------------------------
  // Substring search (str.find)
  // ---------------------------------------------------------------------

  /** `pat` occurs in `s` starting at index `i`. */
  predicate OccursAt(s: string, pat: string, i: int) {
    0 <= i && i + |pat| <= |s| && s[i..i + |pat|] == pat
  }

  /** `pat` occurs at `k` and nowhere before. */
  predicate FirstOccurrence(s: string, pat: string, k: int) {
    OccursAt(s, pat, k) && forall j :: 0 <= j < k ==> !OccursAt(s, pat, j)
  }

  /** The first occurrence of `pat` in `s` at or after `from`, or -1. */
  function FindFrom(s: string, pat: string, from: nat): (r: int)
    requires from <= |s|
    decreases |s| - from
    ensures r == -1 || (from <= r && OccursAt(s, pat, r))
    ensures r == -1 ==> forall i :: from <= i ==> !OccursAt(s, pat, i)
    ensures r != -1 ==> forall i :: from <= i < r ==> !OccursAt(s, pat, i)
  {
    if from + |pat| > |s| then -1
    else if s[from..from + |pat|] == pat then from
    else FindFrom(s, pat, from + 1)
  }

  /** `s.find(pat)`: the lowest index where `pat` occurs in `s`, or -1. */
  function Find(s: string, pat: string): (r: int)
    ensures r == -1 <==> forall i :: !OccursAt(s, pat, i)
    ensures r != -1 ==> FirstOccurrence(s, pat, r)
  {
    FindFrom(s, pat, 0)
  }

  // ---------------------------------------------------------------------
  // Whitespace trimming (str.strip)
  // ---------------------------------------------------------------------

  /** The characters `str.strip()` removes: those Python's `str.isspace`
      accepts, listed as a fixed set. */
  predicate IsWhitespace(c: char) {
    || ('\U{9}' <= c <= '\U{D}')
    || ('\U{1C}' <= c <= '\U{20}')
    || c == '\U{85}' || c == '\U{A0}' || c == '\U{1680}'
    || ('\U{2000}' <= c <= '\U{200A}')
    || c == '\U{2028}' || c == '\U{2029}' || c == '\U{202F}' || c == '\U{205F}' || c == '\U{3000}'
  }

  predicate AllWhitespace(s: string) {
    forall i :: 0 <= i < |s| ==> IsWhitespace(s[i])
  }

  /** No whitespace at either end. */
  predicate IsStripped(s: string) {
    s == [] || (!IsWhitespace(s[0]) && !IsWhitespace(s[|s| - 1]))
  }

  /** The end of the whitespace run of `s` that starts at `i`. */
  function SkipLeading(s: string, i: nat): (n: nat)
    requires i <= |s|
    decreases |s| - i
    ensures i <= n <= |s|
    ensures forall j :: i <= j < n ==> IsWhitespace(s[j])
    ensures n < |s| ==> !IsWhitespace(s[n])
  {
    if i < |s| && IsWhitespace(s[i]) then SkipLeading(s, i + 1) else i
  }

  /** The start of the whitespace run of `s` that ends at `j`, not going
      below `lo`. */
  function SkipTrailing(s: string, lo: nat, j: nat): (n: nat)
    requires lo <= j <= |s|
    decreases j
    ensures lo <= n <= j
    ensures forall k :: n <= k < j ==> IsWhitespace(s[k])
    ensures n > lo ==> !IsWhitespace(s[n - 1])
  {
    if j > lo && IsWhitespace(s[j - 1]) then SkipTrailing(s, lo, j - 1) else j
  }

  /** `r` occurs in `s` as a contiguous piece. */
  ghost predicate IsInfix(r: string, s: string) {
    exists i :: OccursAt(s, r, i)
  }

  lemma InfixOfSuffix(r: string, s: string, k: nat)
    requires k <= |s| && IsInfix(r, s[k..])
    ensures IsInfix(r, s)
  {
    var i :| OccursAt(s[k..], r, i);
    assert s[k + i..k + i + |r|] == r;
    assert OccursAt(s, r, k + i);
  }

  /** `s.strip()`: the part of `s` left after removing whitespace at both
      ends; what is removed is whitespace and what is left starts and ends
      with something else. */
  function Strip(s: string): (r: string)
    ensures |r| <= |s|
    ensures IsStripped(r)
    ensures exists i :: OccursAt(s, r, i) && AllWhitespace(s[..i]) && AllWhitespace(s[i + |r|..])
  {
    var a := SkipLeading(s, 0);
    var b := SkipTrailing(s, a, |s|);
    var r := s[a..b];
    assert OccursAt(s, r, a);
    assert AllWhitespace(s[..a]) && AllWhitespace(s[b..]);
    r
  }

  /** Surrounding a stripped text with whitespace and stripping gives the
      text back: `Strip` removes exactly the whitespace at the ends. */
  lemma StripOfPadded(front: string, text: string, back: string)
    requires AllWhitespace(front) && AllWhitespace(back)
    requires IsStripped(text)
    ensures Strip(front + text + back) == text
  {
    var s := front + text + back;
    var f := |front|;
    var e := f + |text|;
    assert forall j :: 0 <= j < f ==> s[j] == front[j];
    assert forall j :: e <= j < |s| ==> s[j] == back[j - e];
    if text == [] {
      var a := SkipLeading(s, 0);
      assert a == |s|;
    } else {
      assert s[f] == text[0] && s[e - 1] == text[|text| - 1];
      var a := SkipLeading(s, 0);
      assert a == f;
      var b := SkipTrailing(s, a, |s|);
      assert b == e;
      assert s[f..e] == text;
    }
  }

  /** Stripping twice is stripping once. */
  lemma StripIdempotent(s: string)
    ensures Strip(Strip(s)) == Strip(s)
  {
    StripOfPadded([], Strip(s), []);
    assert [] + Strip(s) + [] == Strip(s);
  }

  // ---------------------------------------------------------------------
  // extract_answer
  // ---------------------------------------------------------------------

  const Marker: string := "Final Answer:"

  /** The agent's answer: the stripped text after the first "Final Answer:"
      in the transcript, or "" when the marker does not occur. Which text
      that is, is stated by the lemmas below. */
  function ExtractAnswer(result: string): (answer: string)
    ensures IsStripped(answer)
    ensures |answer| <= |result|
  {
    var start := Find(result, Marker);
    if start != -1 then Strip(result[start + |Marker|..]) else ""
  }

  /** `find` returns the first occurrence, whichever it is. */
  lemma FindIsFirstOccurrence(s: string, pat: string, k: int)
    requires FirstOccurrence(s, pat, k)
    ensures Find(s, pat) == k
  {
    var r := Find(s, pat);
    assert OccursAt(s, pat, k);
    assert FirstOccurrence(s, pat, r);
  }

  /** With the marker first occurring at `k`, the answer is the stripped text
      after that marker. */
  lemma ExtractAnswerAtFirstMarker(result: string, k: int)
    requires FirstOccurrence(result, Marker, k)
    ensures ExtractAnswer(result) == Strip(result[k + |Marker|..])
  {
    FindIsFirstOccurrence(result, Marker, k);
  }

  /** When the marker occurs, the answer is a contiguous piece of the
      transcript, shorter than the transcript by at least the marker. */
  lemma ExtractAnswerIsInfix(result: string, k: int)
    requires FirstOccurrence(result, Marker, k)
    ensures |ExtractAnswer(result)| <= |result| - |Marker|
    ensures IsInfix(ExtractAnswer(result), result)
  {
    ExtractAnswerAtFirstMarker(result, k);
    StripOfSuffixIsInfix(result, k + |Marker|);
  }

  /** Stripping a suffix of `s` leaves a contiguous piece of `s`. */
  lemma StripOfSuffixIsInfix(s: string, j: nat)
    requires j <= |s|
    ensures |Strip(s[j..])| <= |s| - j
    ensures IsInfix(Strip(s[j..]), s)
  {
    var tail := s[j..];
    var answer := Strip(tail);
    var i :| OccursAt(tail, answer, i);
    assert IsInfix(answer, tail);
    InfixOfSuffix(answer, s, j);
  }

  /** The colon closes the marker and occurs nowhere else in it, so no
      occurrence of the marker can overlap the start of another. */
  lemma MarkerColonOnlyAtEnd(j: int)
    requires 0 <= j < |Marker| - 1
    ensures Marker[j] != ':'
  {
    assert Marker[..|Marker| - 1] == "Final Answer";
    assert Marker[j] in Marker[..|Marker| - 1];
  }

  /** No marker can start inside `before` when `before` holds none: it
      would either lie within `before` or end inside the marker that follows. */
  lemma NoMarkerStartsBefore(before: string, after: string, i: int)
    requires forall i :: !OccursAt(before, Marker, i)
    requires 0 <= i < |before|
    ensures !OccursAt(before + Marker + after, Marker, i)
  {
    var t := before + Marker + after;
    var n := |Marker|;
    if i + n <= |before| {
      assert t[i..i + n] == before[i..i + n];
      assert !OccursAt(before, Marker, i);
    } else {
      var j := i + n - 1 - |before|;
      MarkerColonOnlyAtEnd(j);
      assert t[i + n - 1] == Marker[j];
      assert t[i..i + n][n - 1] != Marker[n - 1];
    }
  }

  /** A transcript whose text before some marker holds no marker yields the
      stripped text after that marker, whatever follows it, later markers
      included. */
  lemma {:induction false} ExtractAnswerAfterFirstMarker(before: string, after: string)
    requires forall i :: !OccursAt(before, Marker, i)
    ensures ExtractAnswer(before + Marker + after) == Strip(after)
  {
    var t := before + Marker + after;
    var k := |before|;
    assert t[k..k + |Marker|] == Marker;
    assert OccursAt(t, Marker, k);
    forall i | 0 <= i < k
      ensures !OccursAt(t, Marker, i)
    {
      NoMarkerStartsBefore(before, after, i);
    }
    ExtractAnswerAtFirstMarker(t, k);
    assert t[k + |Marker|..] == after;
  }

  /** A transcript without the marker yields the empty answer. */
  lemma ExtractAnswerWithoutMarker(result: string)
    requires forall i :: !OccursAt(result, Marker, i)
    ensures ExtractAnswer(result) == ""
  {
  }

  /** An answer padded with whitespace after the first marker comes back
      without the padding. */
  lemma ExtractAnswerOfPaddedAnswer(before: string, front: string, text: string, back: string)
    requires forall i :: !OccursAt(before, Marker, i)
    requires AllWhitespace(front) && AllWhitespace(back) && IsStripped(text)
    ensures ExtractAnswer(before + Marker + front + text + back) == text
  {
    assert before + Marker + front + text + back == before + Marker + (front + text + back);
    ExtractAnswerAfterFirstMarker(before, front + text + back);
    StripOfPadded(front, text, back);
  }

  /** The worked example: the answer after the marker, with the space after
      the colon stripped. */
  lemma ExtractAnswerExample(transcript: string, answer: string)
    requires answer == "The soup needs salt."
    requires transcript == "...blah " + Marker + " " + answer
    ensures ExtractAnswer(transcript) == answer
  {
    var before := "...blah ";
    assert forall i :: !OccursAt(before, Marker, i);
    assert IsStripped(answer);
    ExtractAnswerOfPaddedAnswer(before, " ", answer, []);
    assert before + Marker + " " + answer + [] == transcript;
  }

  // ---------------------------------------------------------------------
  // vector_exist
  // ---------------------------------------------------------------------

  /** Whether the named index holds any vector: false exactly when its total
      vector count is zero; the statistics query fails for a missing index. */
  function VectorExist(indexes: map<string, IndexInfo>, indexName: string): (r: Result<bool, Error>)
    ensures r.Failure? <==> indexName !in indexes
    ensures r.Success? ==> (r.value <==> TotalVectorCount(indexes[indexName]) != 0)
  {
    match DescribeStats(indexes, indexName)
    case Failure(e) => Failure(e)
    case Success(count) => Success(count != 0)
  }

  // ---------------------------------------------------------------------
  // get_paths
  // ---------------------------------------------------------------------

  /** One entry of a directory listing: its name and whether it is a
      regular file. */
  datatype DirEntry = DirEntry(name: string, isFile: bool)

  predicate EndsWith(s: string, suffix: string) {
    |suffix| <= |s| && s[|s| - |suffix|..] == suffix
  }

  predicate IsPdfEntry(e: DirEntry) {
    e.isFile && EndsWith(e.name, ".pdf")
  }

  function Names(listing: seq<DirEntry>): (names: seq<string>)
    ensures |names| == |listing|
    ensures forall i :: 0 <= i < |listing| ==> names[i] == listing[i].name
  {
    seq(|listing|, i requires 0 <= i < |listing| => listing[i].name)
  }

  /** The names of the listed regular files whose name ends in ".pdf"
      (case-sensitively). */
  function PdfFiles(listing: seq<DirEntry>): (names: seq<string>)
    ensures |names| <= |listing|
    ensures forall n :: n in names <==> exists e :: e in listing && IsPdfEntry(e) && e.name == n
  {
    if listing == [] then []
    else
      var init := listing[..|listing| - 1];
      var last := listing[|listing| - 1];
      assert listing == init + [last];
      PdfFiles(init) + (if IsPdfEntry(last) then [last.name] else [])
  }

  /** `a` can be obtained from `b` by deleting elements. */
  predicate IsSubsequence<T(==)>(a: seq<T>, b: seq<T>)
    decreases |b|
  {
    || a == []
    || (b != [] && a != [] && a[|a| - 1] == b[|b| - 1] && IsSubsequence(a[..|a| - 1], b[..|b| - 1]))
    || (b != [] && IsSubsequence(a, b[..|b| - 1]))
  }

  /** The PDF files keep the order of the listing. */
  lemma {:induction false} PdfFilesKeepListingOrder(listing: seq<DirEntry>)
    ensures IsSubsequence(PdfFiles(listing), Names(listing))
  {
    if listing != [] {
      var init := listing[..|listing| - 1];
      var last := listing[|listing| - 1];
      PdfFilesKeepListingOrder(init);
      assert Names(listing)[..|listing| - 1] == Names(init);
      if IsPdfEntry(last) {
        var a := PdfFiles(listing);
        assert a[..|a| - 1] == PdfFiles(init);
      } else {
        assert PdfFiles(listing) == PdfFiles(init);
      }
    }
  }

  /** The positions of the listing that hold PDF files. */
  ghost function PdfPositions(listing: seq<DirEntry>): set<nat> {
    set i: nat | i < |listing| && IsPdfEntry(listing[i])
  }

  /** One name per PDF entry of the listing: a name listed twice as a PDF
      file is kept twice. */
  lemma {:induction false} PdfFilesCount(listing: seq<DirEntry>)
    ensures |PdfFiles(listing)| == |PdfPositions(listing)|
  {
    if listing != [] {
      var init := listing[..|listing| - 1];
      var last := listing[|listing| - 1];
      PdfFilesCount(init);
      var s := PdfPositions(init);
      assert |listing| - 1 !in s;
      if IsPdfEntry(last) {
        assert PdfPositions(listing) == s + {|listing| - 1};
      } else {
        assert PdfPositions(listing) == s;
      }
    }
  }

  /** A listing whose names are distinct gives distinct PDF file names. */
  lemma {:induction false} PdfFilesDistinct(listing: seq<DirEntry>)
    requires forall i, j :: 0 <= i < j < |listing| ==> listing[i].name != listing[j].name
    ensures forall i, j :: 0 <= i < j < |PdfFiles(listing)| ==> PdfFiles(listing)[i] != PdfFiles(listing)[j]
  {
    if listing != [] {
      var init := listing[..|listing| - 1];
      var last := listing[|listing| - 1];
      PdfFilesDistinct(init);
      if IsPdfEntry(last) {
        assert last.name !in PdfFiles(init) by {
          forall e | e in init
            ensures e.name != last.name
          {
            var k :| 0 <= k < |init| && init[k] == e;
            assert listing[k] == e;
          }
        }
      }
    }
  }

  /** Upper-case extensions are not PDF files here. */
  lemma UpperCaseExtensionExcluded()
    ensures PdfFiles([DirEntry("menu.PDF", true), DirEntry("dal.pdf", true), DirEntry("old.pdf", false)]) == ["dal.pdf"]
  {
    var l := [DirEntry("menu.PDF", true), DirEntry("dal.pdf", true), DirEntry("old.pdf", false)];
    assert !IsPdfEntry(l[0]) by { assert l[0].name[5..] != ".pdf"; }
    assert IsPdfEntry(l[1]) by { assert l[1].name[3..] == ".pdf"; }
    assert l[..2][..1] == [l[0]];
    assert l[..2] == [l[0], l[1]];
    assert l[..|l| - 1] == l[..2];
  }

  /** `get_paths`: walks the listing of the data directory and collects the
      names of the PDF files in listing order. */
  method GetPaths(listing: seq<DirEntry>) returns (pdfFiles: seq<string>)
    ensures pdfFiles == PdfFiles(listing)
  {
    pdfFiles := [];
    for i := 0 to |listing|
      invariant pdfFiles == PdfFiles(listing[..i])
    {
      assert listing[..i + 1][..i] == listing[..i];
      if IsPdfEntry(listing[i]) {
        pdfFiles := pdfFiles + [listing[i].name];
      }
    }
    assert listing[..|listing|] == listing;
  }
}
