/**
 * The review formatter `_format_ai_review` as the step-by-step procedure it is:
 * a list of output parts appended to section by section, `for` scans over the
 * review's lines that stop at the first match, the `in_recs` flag of the
 * recommendation scan, and the final replacement of the parts by the fallback
 * notice. Each scan is proved to compute the corresponding function of
 * ReviewSpec, and the whole formatter to compute `Formatted`.
 */
module ReviewFormatter {
  import opened Str
  import opened ReviewSpec

  /** The scan for the first line containing `marker`, whose value replaces `default`. */
  method ScanField(lines: seq<string>, marker: string, default: string) returns (value: string)
    requires marker != []
    ensures value == FieldValue(lines, marker, default)
  {
    value := default;
    for i := 0 to |lines|
      invariant forall k :: 0 <= k < i ==> !Contains(lines[k], marker)
      invariant value == default
    {
      if Contains(lines[i], marker) {
        value := Strip(RemoveAll(lines[i], marker));
        assert IsFirst(lines, marker, i);
        break;
      }
    }
  }

  /** The nested scan: the first marker line, then the first meaningful line after it. */
  method ScanDescription(lines: seq<string>) returns (description: string)
    ensures description == Description(lines)
  {
    description := "";
    for i := 0 to |lines|
      invariant forall k :: 0 <= k < i ==> !Contains(lines[k], DescriptionMarker)
      invariant description == ""
    {
      if Contains(lines[i], DescriptionMarker) {
        assert IsFirst(lines, DescriptionMarker, i);
        for j := i + 1 to |lines|
          invariant forall k :: i + 1 <= k < j ==> !Meaningful(lines[k])
          invariant description == ""
        {
          if Strip(lines[j]) != "" && !StartsWith(Strip(lines[j]), "###") {
            description := Strip(lines[j]);
            assert IsFirstMeaningful(lines, i + 1, j);
            DescriptionChosen(lines, i);
            return;
          }
        }
        DescriptionChosen(lines, i);
        return;
      }
    }
  }

  /** The recommendation scan with its `in_recs` flag; no cap on the number collected. */
  method ScanRecommendations(lines: seq<string>) returns (recs: seq<string>)
    ensures recs == Recommendations(lines)
  {
    recs := [];
    var inRecs := false;
    for i := 0 to |lines|
      invariant recs + CollectRecs(lines[i..], inRecs) == Recommendations(lines)
    {
      var line := lines[i];
      CollectRecsStep(lines, i, inRecs);
      if Contains(line, RecsMarker) {
        assert Classify(line, inRecs).Enter?;
        inRecs := true;
        assert recs + CollectRecs(lines[i + 1..], inRecs) == Recommendations(lines);
        continue;
      } else if inRecs && StartsWith(Strip(line), "###") {
        assert Classify(line, inRecs).Stop?;
        break;
      } else if (inRecs && StartsWith(Strip(line), "1.")) || StartsWith(Strip(line), "-") {
        var rec := Strip(line);
        if StartsWith(rec, "1.") {
          rec := Strip(rec[2..]);
        } else if StartsWith(rec, "-") {
          rec := Strip(rec[1..]);
        }
        assert rec == Unwrap(line);
        assert Classify(line, inRecs).Take?;
        ghost var later := CollectRecs(lines[i + 1..], inRecs);
        if rec != "" && |rec| > 10 {
          assert CollectRecs(lines[i..], inRecs) == [rec] + later;
          AppendOne(recs, rec, later);
          recs := recs + [rec];
        } else {
          assert CollectRecs(lines[i..], inRecs) == later;
        }
      }
    }
  }

  /** One step of the scan: what the rest of the collection is after line `i`. */
  lemma CollectRecsStep(lines: seq<string>, i: nat, inRecs: bool)
    requires i < |lines|
    ensures Classify(lines[i], inRecs).Enter? ==> CollectRecs(lines[i..], inRecs) == CollectRecs(lines[i + 1..], true)
    ensures Classify(lines[i], inRecs).Stop? ==> CollectRecs(lines[i..], inRecs) == []
    ensures Classify(lines[i], inRecs).Take? ==>
      CollectRecs(lines[i..], inRecs) == (if |Unwrap(lines[i])| > 10 then [Unwrap(lines[i])] else []) + CollectRecs(lines[i + 1..], inRecs)
    ensures Classify(lines[i], inRecs).Pass? ==> CollectRecs(lines[i..], inRecs) == CollectRecs(lines[i + 1..], inRecs)
  {
    assert lines[i..][0] == lines[i];
    assert lines[i..][1..] == lines[i + 1..];
  }

  lemma AppendOne(done: seq<string>, x: string, later: seq<string>)
    ensures done + ([x] + later) == (done + [x]) + later
  {
  }

  /** The excerpt from the first ```` ```python ```` at or after `from` through its closing fence. */
  method ExtractFenced(aiContent: string, from: nat) returns (code: string)
    ensures code == FencedBlock(aiContent, from)
  {
    code := "";
    var startIdx := Find(aiContent, PythonFence, from);
    if startIdx != -1 {
      var endIdx := Find(aiContent, Fence, startIdx + 9);
      if endIdx != -1 {
        code := aiContent[startIdx..endIdx + 3];
      }
    }
  }

  /** Appends the Key Fixes block: its title, the first three items numbered from 1, a blank line. */
  method AppendKeyFixes(parts: seq<string>, recommendations: seq<string>) returns (extended: seq<string>)
    ensures extended == parts + KeyFixesParts(recommendations)
  {
    extended := parts;
    if recommendations != [] {
      var numbered := NumberItems(recommendations[..Min(|recommendations|, 3)]);
      extended := extended + ([KeyFixesTitle] + numbered + [""]);
    }
  }

  /** The `enumerate(recommendations[:3], 1)` loop: each item behind its number. */
  method NumberItems(shown: seq<string>) returns (numbered: seq<string>)
    ensures numbered == Numbered(shown, 1)
  {
    numbered := [];
    for i := 0 to |shown|
      invariant numbered == Numbered(shown[..i], 1)
    {
      assert shown[..i + 1] == shown[..i] + [shown[i]];
      NumberedSnoc(shown[..i], shown[i], 1);
      numbered := numbered + [NatToString(i + 1) + ". " + shown[i]];
    }
    assert shown[..|shown|] == shown;
  }

  /** Appends a code excerpt under its title, unless the excerpt is empty. */
  method AppendCode(parts: seq<string>, title: string, code: string) returns (extended: seq<string>)
    ensures extended == parts + CodeParts(title, code)
  {
    extended := parts;
    if code != "" {
      extended := extended + [title, code, ""];
    }
  }

  /** The parts the formatter appends, section by section, before any fallback. */
  method CollectParts(aiContent: string) returns (formattedParts: seq<string>)
    ensures formattedParts == RawParts(aiContent)
  {
    var lines := Split(aiContent);
    formattedParts := CollectHeader(aiContent, lines);
    formattedParts := CollectFindings(formattedParts, lines);

    var vulnerableCode := ExtractFenced(aiContent, 0);
    formattedParts := AppendCode(formattedParts, "**Vulnerable Code:**", vulnerableCode);

    var secureCode := "";
    var secureStart := Find(aiContent, SecureMarker, 0);
    if secureStart != -1 {
      secureCode := ExtractFenced(aiContent, secureStart);
    }
    assert secureCode == SecureCode(aiContent);
    formattedParts := AppendCode(formattedParts, "**Secure Code:**", secureCode);

    var recommendations := ScanRecommendations(lines);
    formattedParts := AppendKeyFixes(formattedParts, recommendations);
    RawPartsInOrder(aiContent);
  }

  /** The heading pair, the File line and the Severity pair, in that order. */
  method CollectHeader(aiContent: string, lines: seq<string>) returns (parts: seq<string>)
    ensures parts == HeadingParts(aiContent) + FileParts(lines) + SeverityParts(lines)
  {
    parts := [];
    if Contains(aiContent, HeadingMarker) {
      parts := parts + [HeadingLine, ""];
    }
    var location := ScanField(lines, FileMarker, "");
    if location != "" {
      parts := parts + ["**File:** " + location];
    }
    assert parts == HeadingParts(aiContent) + FileParts(lines);
    var severity := ScanField(lines, SeverityMarker, DefaultSeverity);
    parts := parts + ["**Severity:** " + severity, ""];
  }

  /** Appends the CWE pair and the Issue pair, each only when its value was found. */
  method CollectFindings(parts: seq<string>, lines: seq<string>) returns (extended: seq<string>)
    ensures extended == parts + CweParts(lines) + IssueParts(lines)
  {
    extended := parts;
    var cwe := ScanField(lines, CweMarker, "");
    if cwe != "" {
      extended := extended + ["**CWE:** " + cwe, ""];
    }
    assert extended == parts + CweParts(lines);
    var description := ScanDescription(lines);
    if description != "" {
      extended := extended + ["**Issue:** " + description, ""];
    }
  }

  /**
   * Formats free-form review text into the markdown fragment: the empty text
   * gives the no-content notice, a text from which nothing beyond File and
   * Severity could be extracted gives the fixed five-line notice, and any other
   * text the parts of `RawParts` joined with newlines.
   */
  method FormatAiReview(aiContent: string) returns (formatted: string)
    ensures formatted == Formatted(aiContent)
    ensures aiContent == "" ==> formatted == NoContentNotice
    ensures aiContent != "" && NothingBeyondFileAndSeverity(aiContent) ==> formatted == Join(FallbackNotice)
    ensures aiContent != "" && !NothingBeyondFileAndSeverity(aiContent) ==> formatted == Join(RawParts(aiContent))
  {
    if aiContent == "" {
      return NoContentNotice;
    }
    var formattedParts := CollectParts(aiContent);
    if |formattedParts| <= 3 {
      formattedParts := FallbackNotice;
    }
    formatted := Join(formattedParts);
    FallbackExactly(aiContent);
  }
}
