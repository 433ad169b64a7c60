/**
 * The synopsis the `/discussion` command shows from an Area Forecast
 * Discussion: the lines after a line mentioning SYNOPSIS, up to the next
 * line that opens a new section with ".", joined, stripped and cut to a
 * field value; or the start of the product when there is none.
 */
module Synopsis {
  import opened Strings

  /** The most characters of the synopsis field. */
  const SynopsisLimit: nat := 1024

  /** The header test: `".SYNOPSIS" in line.upper() or "SYNOPSIS" in line.upper()`. */
  predicate IsHeader(line: string)
  {
    Contains(Upper(line), ".SYNOPSIS") || Contains(Upper(line), "SYNOPSIS")
  }

  /** The first alternative of the header test adds nothing: a line is a
      header exactly when its upper-cased form mentions SYNOPSIS. */
  lemma IsHeaderIff(line: string)
    ensures IsHeader(line) <==> Contains(Upper(line), "SYNOPSIS")
  {
    if Contains(Upper(line), ".SYNOPSIS") {
      OccursContains(".SYNOPSIS", "SYNOPSIS", 1);
      ContainsTrans(Upper(line), ".SYNOPSIS", "SYNOPSIS");
    }
  }

  /** Where the scan of the lines stands: the lines collected, whether a
      header has been seen, and whether the loop has broken off. */
  datatype Scan = Scan(collected: seq<string>, inSynopsis: bool, stopped: bool)

  /** One pass of the loop body over `line`. */
  function Step(st: Scan, line: string): (next: Scan)
    ensures next.stopped ==> next.inSynopsis || st.stopped
  {
    if st.stopped then st
    else if IsHeader(line) then Scan(st.collected, true, false)
    else if StartsWith(line, ".") && st.inSynopsis then Scan(st.collected, true, true)
    else if st.inSynopsis then Scan(st.collected + [line], true, false)
    else st
  }

  /** The state of the scan after the lines `lines`. */
  function ScanLines(lines: seq<string>): (st: Scan)
    ensures st.stopped ==> st.inSynopsis
    ensures !st.inSynopsis ==> st.collected == []
    ensures forall k :: 0 <= k < |st.collected| ==>
              st.collected[k] in lines && !IsHeader(st.collected[k]) && !StartsWith(st.collected[k], ".")
    decreases |lines|
  {
    if lines == [] then Scan([], false, false)
    else
      var front := lines[..|lines| - 1];
      assert forall x :: x in front ==> x in lines;
      Step(ScanLines(front), lines[|lines| - 1])
  }

  /** The scan of `j` lines is one more step after the scan of `j - 1`. */
  lemma ScanStep(lines: seq<string>, j: nat)
    requires 0 < j <= |lines|
    ensures ScanLines(lines[..j]) == Step(ScanLines(lines[..j - 1]), lines[j - 1])
  {
    assert lines[..j][..j - 1] == lines[..j - 1];
  }

  /** Once the loop has broken off, later lines change nothing. */
  lemma {:induction false} StoppedStays(lines: seq<string>, i: nat)
    requires i <= |lines| && ScanLines(lines[..i]).stopped
    ensures ScanLines(lines) == ScanLines(lines[..i])
    decreases |lines| - i
  {
    if i < |lines| {
      assert lines[..i + 1][..i] == lines[..i];
      StoppedStays(lines, i + 1);
    } else {
      assert lines[..i] == lines;
    }
  }

  /** Without a header line nothing is collected. */
  lemma {:induction false} NoHeaderNothingCollected(lines: seq<string>)
    requires NoHeader(lines)
    ensures !ScanLines(lines).inSynopsis && ScanLines(lines).collected == []
    decreases |lines|
  {
    if lines != [] {
      var front := lines[..|lines| - 1];
      assert forall k :: 0 <= k < |front| ==> front[k] == lines[k];
      NoHeaderNothingCollected(front);
    }
  }

  /** The field value: the stripped, joined synopsis cut to 1024, or the
      first 1024 characters of the product when no line was collected. */
  function SynopsisText(productText: string): (r: string)
    ensures |r| <= SynopsisLimit
  {
    var synopsis := ScanLines(Split(productText, '\n')).collected;
    if synopsis != [] then Take(Strip(Join(synopsis, '\n')), SynopsisLimit)
    else Take(productText, SynopsisLimit)
  }

  /** No line is a header. */
  predicate NoHeader(lines: seq<string>)
  {
    forall k :: 0 <= k < |lines| ==> !IsHeader(lines[k])
  }

  /** A product without any SYNOPSIS line falls back to its own start. */
  lemma NoHeaderFallback(productText: string)
    requires NoHeader(Split(productText, '\n'))
    ensures SynopsisText(productText) == Take(productText, SynopsisLimit)
  {
    NoHeaderNothingCollected(Split(productText, '\n'));
  }

  /** The lines of `lines` that are no header, in order. */
  function NonHeaders(lines: seq<string>): (r: seq<string>)
    ensures |r| <= |lines|
    ensures forall k :: 0 <= k < |r| ==> !IsHeader(r[k])
    decreases |lines|
  {
    if lines == [] then []
    else
      var last := lines[|lines| - 1];
      NonHeaders(lines[..|lines| - 1]) + (if IsHeader(last) then [] else [last])
  }

  /** Filtering one more line of a stretch keeps it exactly when it is no
      header. */
  lemma NonHeadersSnoc(lines: seq<string>, a: nat, b: nat)
    requires a < b <= |lines|
    ensures NonHeaders(lines[a..b])
            == NonHeaders(lines[a..b - 1]) + (if IsHeader(lines[b - 1]) then [] else [lines[b - 1]])
  {
    assert lines[a..b][..b - a - 1] == lines[a..b - 1];
  }

  /** A line that closes the synopsis: it opens a new section with "." and
      is no header (a header line is skipped before the "." test). */
  predicate EndsSection(line: string)
  {
    StartsWith(line, ".") && !IsHeader(line)
  }

  /** Inside the synopsis, a line that does not close it is collected
      unless it is another header. */
  lemma StepInside(prev: seq<string>, line: string)
    requires !EndsSection(line)
    ensures Step(Scan(prev, true, false), line)
            == Scan(prev + (if IsHeader(line) then [] else [line]), true, false)
  {
    if IsHeader(line) {
      assert prev + [] == prev;
    }
  }

  /** The first header opens the synopsis with nothing collected yet. */
  lemma FirstHeader(lines: seq<string>, h: nat)
    requires h < |lines|
    requires NoHeader(lines[..h]) && IsHeader(lines[h])
    ensures ScanLines(lines[..h + 1]) == Scan([], true, false)
  {
    ScanStep(lines, h + 1);
    NoHeaderNothingCollected(lines[..h]);
  }

  /** Inside the synopsis: after the first header at `h` and before any line
      closing it, the scan has collected the non-header lines after `h`. */
  lemma {:induction false} ScanInside(lines: seq<string>, h: nat, j: nat)
    requires h < j <= |lines|
    requires NoHeader(lines[..h]) && IsHeader(lines[h])
    requires forall k :: h < k < j ==> !EndsSection(lines[k])
    ensures ScanLines(lines[..j]) == Scan(NonHeaders(lines[h + 1..j]), true, false)
    decreases j
  {
    if j == h + 1 {
      FirstHeader(lines, h);
      assert lines[h + 1..j] == [];
    } else {
      var line := lines[j - 1];
      var prev := NonHeaders(lines[h + 1..j - 1]);
      assert ScanLines(lines[..j - 1]) == Scan(prev, true, false) by {
        ScanInside(lines, h, j - 1);
      }
      ScanStep(lines, j);
      NonHeadersSnoc(lines, h + 1, j);
      StepInside(prev, line);
    }
  }

  /** What a present synopsis collects: with the first header at `h` and
      the first later line closing the section at `e` (or no such line,
      `e == |lines|`), exactly the non-header lines strictly between them,
      in order. */
  lemma ScanLinesCollects(lines: seq<string>, h: nat, e: nat)
    requires h < e <= |lines|
    requires NoHeader(lines[..h]) && IsHeader(lines[h])
    requires forall k :: h < k < e ==> !EndsSection(lines[k])
    requires e < |lines| ==> EndsSection(lines[e])
    ensures ScanLines(lines).inSynopsis
    ensures ScanLines(lines).collected == NonHeaders(lines[h + 1..e])
  {
    ScanInside(lines, h, e);
    if e < |lines| {
      ScanStep(lines, e + 1);
      assert lines[..e + 1][..e] == lines[..e];
      StoppedStays(lines, e + 1);
    } else {
      assert lines[..e] == lines;
    }
  }

  /** The field of a product whose synopsis section holds some text line:
      those lines joined, stripped and cut to 1024 characters. */
  lemma SynopsisOfSection(productText: string, h: nat, e: nat)
    requires h < e <= |Split(productText, '\n')|
    requires NoHeader(Split(productText, '\n')[..h]) && IsHeader(Split(productText, '\n')[h])
    requires forall k :: h < k < e ==> !EndsSection(Split(productText, '\n')[k])
    requires e < |Split(productText, '\n')| ==> EndsSection(Split(productText, '\n')[e])
    requires NonHeaders(Split(productText, '\n')[h + 1..e]) != []
    ensures SynopsisText(productText)
            == Take(Strip(Join(NonHeaders(Split(productText, '\n')[h + 1..e]), '\n')), SynopsisLimit)
  {
    ScanLinesCollects(Split(productText, '\n'), h, e);
  }

  /** A collected synopsis gives a field without leading whitespace (the
      1024-character cut may end it in a space). */
  lemma CollectedStripped(productText: string)
    requires ScanLines(Split(productText, '\n')).collected != []
    ensures SynopsisText(productText) != [] ==> !IsSpace(SynopsisText(productText)[0])
  {
  }

  /** The loop of `/discussion`: scan the product line by line, collect the
      lines after a header and break at the first line opening a new
      section. */
  method ExtractSynopsis(productText: string) returns (synopsisText: string)
    ensures synopsisText == SynopsisText(productText)
  {
    var lines := Split(productText, '\n');
    var synopsis: seq<string> := [];
    var inSynopsis := false;
    var i := 0;
    while i < |lines|
      invariant 0 <= i <= |lines|
      invariant ScanLines(lines[..i]) == Scan(synopsis, inSynopsis, false)
    {
      var line := lines[i];
      assert lines[..i + 1][..i] == lines[..i];
      if IsHeader(line) {
        inSynopsis := true;
      } else if StartsWith(line, ".") && inSynopsis {
        StoppedStays(lines, i + 1);
        break;
      } else if inSynopsis {
        synopsis := synopsis + [line];
      }
      i := i + 1;
    }
    if i == |lines| {
      assert lines[..i] == lines;
    }
    if synopsis != [] {
      synopsisText := Take(Strip(Join(synopsis, '\n')), SynopsisLimit);
    } else {
      synopsisText := Take(productText, SynopsisLimit);
    }
  }
}
