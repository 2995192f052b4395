/** The deterministic parts of `generate_job_descriptions` (app.py): the numbered
    list of reference samples placed in the prompt, and the parser that turns the
    backend's reply into at most ten job descriptions. */
module Generation {
  import opened PyStr

  /** The heading put in front of the reference samples. */
  const ReferenceHeader: string := "\n\n【フォーマット参考サンプル】以下は文体・長さ・具体性のレベルの参考例です:\n"

  /** At most this many parsed lines are returned. */
  const MaxJobs: nat := 10

  predicate IsDigit(c: char) {
    '0' <= c <= '9'
  }

  function DigitChar(d: nat): (c: char)
    requires d < 10
    ensures IsDigit(c)
  {
    ('0' as int + d) as char
  }

  /** The decimal numeral of `n`, as `f"{n}"` writes it. */
  function DecimalString(n: nat): (r: string)
    ensures r != []
    ensures forall i :: 0 <= i < |r| ==> IsDigit(r[i])
  {
    if n < 10 then [DigitChar(n)] else DecimalString(n / 10) + [DigitChar(n % 10)]
  }

  /** The number a string of digits denotes. */
  function DecimalValue(s: string): nat
    requires forall i :: 0 <= i < |s| ==> IsDigit(s[i])
  {
    if s == [] then 0
    else
      assert IsDigit(s[|s| - 1]);
      10 * DecimalValue(s[..|s| - 1]) + (s[|s| - 1] as int - '0' as int)
  }

  /** The numeral written for an entry reads back as the entry's number. */
  lemma {:induction false} DecimalRoundTrip(n: nat)
    ensures DecimalValue(DecimalString(n)) == n
  {
    if n >= 10 {
      var s := DecimalString(n);
      assert s[..|s| - 1] == DecimalString(n / 10);
      DecimalRoundTrip(n / 10);
    }
  }

  /** One entry of the reference list: `f"{number}. {sample}\n"`. */
  function Entry(number: nat, sample: string): string {
    DecimalString(number) + ". " + sample + "\n"
  }

  /** The entries for `samples`, numbered from `first` on. */
  function NumberedFrom(samples: seq<string>, first: nat): string
    decreases |samples|
  {
    if samples == [] then "" else Entry(first, samples[0]) + NumberedFrom(samples[1..], first + 1)
  }

  /** The `reference_text` built for the prompt: "" when there are no samples;
      otherwise the heading followed by the first `sampleCount` samples, numbered
      from 1. */
  function ReferenceText(samples: seq<string>, sampleCount: nat): (r: string)
    ensures r == "" <==> samples == []
    ensures samples != [] ==> ReferenceHeader <= r
  {
    if samples == [] then "" else ReferenceHeader + NumberedFrom(Take(samples, sampleCount), 1)
  }

  /** The `+=` loop that builds `reference_text`. */
  method BuildReferenceText(samples: seq<string>, sampleCount: nat) returns (text: string)
    ensures text == ReferenceText(samples, sampleCount)
  {
    text := "";
    if samples != [] {
      text := ReferenceHeader;
      var chosen := Take(samples, sampleCount);
      for i := 0 to |chosen|
        invariant text + NumberedFrom(chosen[i..], i + 1) == ReferenceHeader + NumberedFrom(chosen, 1)
      {
        assert chosen[i..][1..] == chosen[i + 1..];
        text := text + DecimalString(i + 1) + ". " + chosen[i] + "\n";
      }
      assert chosen[|chosen|..] == [];
    }
  }

  /** `s.split('\n')`: the pieces between line breaks, one more than there are
      breaks; no piece holds a break. */
  function SplitLines(s: string): (r: seq<string>)
    ensures |r| >= 1
    ensures forall i :: 0 <= i < |r| ==> '\n' !in r[i]
  {
    if s == [] then [""]
    else
      var rest := SplitLines(s[1..]);
      if s[0] == '\n' then [""] + rest
      else
        assert forall i :: 1 <= i < |rest| ==> rest[1..][i - 1] == rest[i];
        [[s[0]] + rest[0]] + rest[1..]
  }

  /** `'\n'.join(lines)`. */
  function JoinLines(lines: seq<string>): string
    requires |lines| >= 1
  {
    if |lines| == 1 then lines[0] else lines[0] + "\n" + JoinLines(lines[1..])
  }

  /** Splitting loses nothing: joining the pieces gives back the reply. */
  lemma {:induction false} SplitJoin(s: string)
    ensures JoinLines(SplitLines(s)) == s
  {
    if s != [] {
      SplitJoin(s[1..]);
      var rest := SplitLines(s[1..]);
      if s[0] != '\n' {
        if |rest| > 1 {
          assert ([[s[0]] + rest[0]] + rest[1..])[1..] == rest[1..];
        }
      }
    }
  }

  /** A line free of breaks, then a break, splits off as one piece. */
  lemma {:induction false} SplitAfterLine(line: string, tail: string)
    requires '\n' !in line
    ensures SplitLines(line + "\n" + tail) == [line] + SplitLines(tail)
  {
    if line == [] {
      assert line + "\n" + tail == "\n" + tail;
      assert ("\n" + tail)[1..] == tail;
    } else {
      assert (line + "\n" + tail)[1..] == line[1..] + "\n" + tail;
      SplitAfterLine(line[1..], tail);
      assert [line[0]] + line[1..] == line;
    }
  }

  /** A stripped line the parser keeps: not blank, not a `#` heading. */
  predicate IsContentLine(stripped: string) {
    stripped != "" && !StartsWith(stripped, "#")
  }

  /** The list comprehension over the split reply: every line stripped, blank
      lines and `#` lines dropped, order kept. */
  function ContentLines(lines: seq<string>): (r: seq<string>)
    ensures |r| <= |lines|
    ensures forall j :: 0 <= j < |r| ==> IsContentLine(r[j]) && IsTrimmed(r[j])
    ensures (forall i :: 0 <= i < |lines| ==> '\n' !in lines[i]) ==> forall j :: 0 <= j < |r| ==> '\n' !in r[j]
  {
    if lines == [] then []
    else
      var line := Strip(lines[0]);
      var rest := ContentLines(lines[1..]);
      assert forall i :: 1 <= i < |lines| ==> lines[1..][i - 1] == lines[i];
      assert forall c :: c !in lines[0] ==> c !in line by {
        forall k | 0 <= k < |line| ensures line[k] in lines[0] {
          assert line[k] == lines[0][StripStart(lines[0]) + k];
        }
      }
      if IsContentLine(line) then [line] + rest else rest
  }

  /** Every kept line is the strip of a line of the reply. */
  lemma {:induction false} ContentLinesFrom(lines: seq<string>)
    ensures forall x :: x in ContentLines(lines) ==> exists i :: 0 <= i < |lines| && x == Strip(lines[i])
  {
    if lines == [] {
      assert |ContentLines(lines)| == 0;
    } else {
      var tail := lines[1..];
      ContentLinesFrom(tail);
      var r, rest := ContentLines(lines), ContentLines(tail);
      var head := Strip(lines[0]);
      assert r == if IsContentLine(head) then [head] + rest else rest;
      forall x | x in rest ensures exists i :: 0 <= i < |lines| && x == Strip(lines[i]) {
        var i :| 0 <= i < |tail| && x == Strip(tail[i]);
        assert tail[i] == lines[i + 1];
      }
    }
  }

  /** Every line whose strip is a content line is kept. */
  lemma {:induction false} ContentLinesKeep(lines: seq<string>)
    ensures forall i :: 0 <= i < |lines| && IsContentLine(Strip(lines[i])) ==> Strip(lines[i]) in ContentLines(lines)
  {
    if lines != [] {
      var tail := lines[1..];
      ContentLinesKeep(tail);
      var r, rest := ContentLines(lines), ContentLines(tail);
      var kept := IsContentLine(Strip(lines[0]));
      assert r == (if kept then [Strip(lines[0])] else []) + rest;
      forall i | 0 <= i < |lines| && IsContentLine(Strip(lines[i])) ensures Strip(lines[i]) in r {
        if i > 0 {
          assert tail[i - 1] == lines[i];
          assert Strip(tail[i - 1]) in rest;
        }
      }
    }
  }

  /** The comprehension keeps reply order: it distributes over concatenation. */
  lemma {:induction false} ContentLinesAppend(a: seq<string>, b: seq<string>)
    ensures ContentLines(a + b) == ContentLines(a) + ContentLines(b)
  {
    if a == [] {
      assert a + b == b;
    } else {
      assert (a + b)[1..] == a[1..] + b;
      ContentLinesAppend(a[1..], b);
    }
  }

  /** Number of ASCII digits at the start of `s` (`\d+` matches greedily). */
  function DigitRun(s: string): (n: nat)
    ensures n <= |s|
    ensures forall i :: 0 <= i < n ==> IsDigit(s[i])
    ensures n < |s| ==> !IsDigit(s[n])
  {
    if s != [] && IsDigit(s[0]) then 1 + DigitRun(s[1..]) else 0
  }

  /** `s` opens with `^\d+[.):]`. */
  predicate HasNumbering(s: string) {
    0 < DigitRun(s) < |s| && s[DigitRun(s)] in {'.', ')', ':'}
  }

  /** `re.sub(r'^\d+[.):]\s*', '', line)`: the numbering and the blanks after it
      cut off, once; a line without numbering is left alone. */
  function StripNumbering(line: string): (r: string)
    ensures !HasNumbering(line) ==> r == line
    ensures HasNumbering(line) ==> |r| < |line|
  {
    if HasNumbering(line) then LStrip(line[DigitRun(line) + 1..]) else line
  }

  /** What is left is a suffix of the line, and stays trimmed when the line was. */
  lemma StripNumberingShape(line: string)
    ensures |StripNumbering(line)| <= |line|
    ensures StripNumbering(line) == line[|line| - |StripNumbering(line)|..]
    ensures IsTrimmed(line) ==> IsTrimmed(StripNumbering(line))
  {
    if HasNumbering(line) {
      var after := line[DigitRun(line) + 1..];
      var r := LStrip(after);
      assert r != [] ==> r[|r| - 1] == line[|line| - 1];
    }
  }

  /** Exactly the numbering is cut: the leading digits, one of `.`, `)` or `:`
      right after them, and then all the whitespace that follows, no more. */
  lemma StripNumberingCut(line: string)
    ensures HasNumbering(line) ==>
      var k := |line| - |StripNumbering(line)|;
      && DigitRun(line) < k <= |line|
      && StripNumbering(line) == line[k..]
      && (forall m :: DigitRun(line) < m < k ==> IsSpace(line[m]))
      && (StripNumbering(line) == [] || !IsSpace(StripNumbering(line)[0]))
  {
    if HasNumbering(line) {
      var d := DigitRun(line);
      var after := line[d + 1..];
      var r := LStrip(after);
      forall m | d < m < |line| - |r| ensures IsSpace(line[m]) {
        assert line[m] == after[m - d - 1];
      }
    }
  }

  /** A numeral, a period and a blank are cut from a trimmed text, and nothing
      more: a numbering inside the text survives. */
  lemma NumberingRemovedOnce(number: nat, text: string)
    requires text != [] && IsTrimmed(text)
    ensures StripNumbering(DecimalString(number) + ". " + text) == text
  {
    var d := DecimalString(number);
    var line := d + ". " + text;
    DigitRunOfNumeral(d, ". " + text);
    assert line == d + (". " + text);
    assert line[|d|] == '.';
    var after := line[|d| + 1..];
    assert after == " " + text;
    assert SpaceEnd(after, 1) == 1;
    assert after[1..] == text;
  }

  lemma {:induction false} DigitRunOfNumeral(digits: string, rest: string)
    requires forall i :: 0 <= i < |digits| ==> IsDigit(digits[i])
    requires rest != [] && !IsDigit(rest[0])
    ensures DigitRun(digits + rest) == |digits|
  {
    if digits != [] {
      assert (digits + rest)[1..] == digits[1..] + rest;
      DigitRunOfNumeral(digits[1..], rest);
    } else {
      assert digits + rest == rest;
    }
  }

  lemma SuffixKeepsOut(s: string, suffix: string)
    requires |suffix| <= |s| && suffix == s[|s| - |suffix|..]
    ensures forall c :: c !in s ==> c !in suffix
  {
    forall k | 0 <= k < |suffix| ensures suffix[k] in s {
      assert suffix[k] == s[|s| - |suffix| + k];
    }
  }

  /** What the `job_list` loop collects from the content lines: each line with
      its numbering cut, kept when something is left. */
  function CleanLines(lines: seq<string>): (r: seq<string>)
    ensures |r| <= |lines|
    ensures forall j :: 0 <= j < |r| ==> r[j] != []
  {
    if lines == [] then []
    else
      var cleaned := StripNumbering(lines[0]);
      var rest := CleanLines(lines[1..]);
      if cleaned != "" then [cleaned] + rest else rest
  }

  /** Every collected description is the cleaned form of a content line. */
  lemma {:induction false} CleanLinesFrom(lines: seq<string>)
    ensures forall x :: x in CleanLines(lines) ==> exists i :: 0 <= i < |lines| && x == StripNumbering(lines[i])
  {
    if lines == [] {
      assert |CleanLines(lines)| == 0;
    } else {
      var tail := lines[1..];
      CleanLinesFrom(tail);
      var r, rest := CleanLines(lines), CleanLines(tail);
      var head := StripNumbering(lines[0]);
      assert r == if head != "" then [head] + rest else rest;
      forall x | x in rest ensures exists i :: 0 <= i < |lines| && x == StripNumbering(lines[i]) {
        var i :| 0 <= i < |tail| && x == StripNumbering(tail[i]);
        assert tail[i] == lines[i + 1];
      }
    }
  }

  /** Every content line that cleans to something non-empty is collected. */
  lemma {:induction false} CleanLinesKeep(lines: seq<string>)
    ensures forall i :: 0 <= i < |lines| && StripNumbering(lines[i]) != "" ==> StripNumbering(lines[i]) in CleanLines(lines)
  {
    if lines != [] {
      var tail := lines[1..];
      CleanLinesKeep(tail);
      var r, rest := CleanLines(lines), CleanLines(tail);
      var kept := StripNumbering(lines[0]) != "";
      assert r == (if kept then [StripNumbering(lines[0])] else []) + rest;
      forall i | 0 <= i < |lines| && StripNumbering(lines[i]) != "" ensures StripNumbering(lines[i]) in r {
        if i > 0 {
          assert tail[i - 1] == lines[i];
          assert StripNumbering(tail[i - 1]) in rest;
        }
      }
    }
  }

  /** The loop keeps reply order: it distributes over concatenation. */
  lemma {:induction false} CleanLinesAppend(a: seq<string>, b: seq<string>)
    ensures CleanLines(a + b) == CleanLines(a) + CleanLines(b)
  {
    if a == [] {
      assert a + b == b;
    } else {
      assert (a + b)[1..] == a[1..] + b;
      CleanLinesAppend(a[1..], b);
    }
  }

  /** A trimmed single line stays so once its numbering is cut. */
  lemma CleanedLineShape(line: string)
    requires IsTrimmed(line) && '\n' !in line
    ensures IsTrimmed(StripNumbering(line)) && '\n' !in StripNumbering(line)
  {
    StripNumberingShape(line);
    SuffixKeepsOut(line, StripNumbering(line));
  }

  /** Cleaning keeps lines trimmed and free of breaks. */
  lemma {:induction false} CleanLinesShape(lines: seq<string>)
    requires forall i :: 0 <= i < |lines| ==> IsTrimmed(lines[i]) && '\n' !in lines[i]
    ensures forall j :: 0 <= j < |CleanLines(lines)| ==>
      IsTrimmed(CleanLines(lines)[j]) && '\n' !in CleanLines(lines)[j]
  {
    if lines != [] {
      var cleaned := StripNumbering(lines[0]);
      CleanedLineShape(lines[0]);
      var rest := CleanLines(lines[1..]);
      CleanLinesShape(lines[1..]);
      var r := CleanLines(lines);
      if cleaned != "" {
        assert r == [cleaned] + rest;
        forall j | 0 <= j < |r| ensures IsTrimmed(r[j]) && '\n' !in r[j] {
          if j > 0 { assert r[j] == rest[j - 1]; }
        }
      } else {
        assert r == rest;
      }
    }
  }

  /** The job descriptions parsed from a reply `content`: the first ten cleaned
      content lines. */
  function ParsedJobs(content: string): (r: seq<string>)
    ensures |r| <= MaxJobs && r <= Parse(content)
    ensures |r| == Min(MaxJobs, |Parse(content)|)
    ensures |Parse(content)| <= MaxJobs ==> r == Parse(content)
  {
    Take(Parse(content), MaxJobs)
  }

  lemma CleanLinesStep(lines: seq<string>, i: nat)
    requires i < |lines|
    ensures CleanLines(lines[i..]) ==
      (if StripNumbering(lines[i]) != "" then [StripNumbering(lines[i])] else []) + CleanLines(lines[i + 1..])
  {
    assert lines[i..][1..] == lines[i + 1..];
  }

  /** Every parsed description is non-empty, trimmed and a single line. */
  lemma ParseShape(content: string)
    ensures forall j :: 0 <= j < |Parse(content)| ==>
      Parse(content)[j] != "" && IsTrimmed(Parse(content)[j]) && '\n' !in Parse(content)[j]
  {
    CleanLinesShape(ContentLines(SplitLines(content)));
  }

  /** The `job_list` loop over the content lines. */
  method CollectJobs(lines: seq<string>) returns (jobList: seq<string>)
    ensures jobList == CleanLines(lines)
  {
    jobList := [];
    assert lines[0..] == lines;
    for i := 0 to |lines|
      invariant jobList + CleanLines(lines[i..]) == CleanLines(lines)
    {
      CleanLinesStep(lines, i);
      var cleaned := StripNumbering(lines[i]);
      if cleaned != "" {
        assert (jobList + [cleaned]) + CleanLines(lines[i + 1..]) == jobList + ([cleaned] + CleanLines(lines[i + 1..]));
        jobList := jobList + [cleaned];
      }
    }
    assert lines[|lines|..] == [];
  }

  /** The parsing half of `generate_job_descriptions`: at most ten non-empty,
      trimmed, single-line descriptions, in the order of the reply. */
  method ParseResponse(content: string) returns (jobs: seq<string>)
    ensures jobs == ParsedJobs(content)
    ensures |jobs| <= MaxJobs
    ensures forall j :: 0 <= j < |jobs| ==> jobs[j] != "" && IsTrimmed(jobs[j]) && '\n' !in jobs[j]
  {
    var lines := ContentLines(SplitLines(content));
    var jobList := CollectJobs(lines);
    ParseShape(content);
    jobs := Take(jobList, MaxJobs);
    assert forall j :: 0 <= j < |jobs| ==> jobs[j] == jobList[j];
  }

  /** The reply "1. a\n2. b\n…" in the very format of the reference list. */
  predicate WellFormedSample(s: string) {
    s != [] && IsTrimmed(s) && '\n' !in s
  }

  /** One entry's line is kept as it is by the comprehension, and the loop
      turns it back into the sample. */
  lemma EntryLineParses(number: nat, sample: string)
    requires WellFormedSample(sample)
    ensures '\n' !in DecimalString(number) + ". " + sample
    ensures Strip(DecimalString(number) + ". " + sample) == DecimalString(number) + ". " + sample
    ensures IsContentLine(DecimalString(number) + ". " + sample)
    ensures StripNumbering(DecimalString(number) + ". " + sample) == sample
  {
    var d := DecimalString(number);
    var line := d + ". " + sample;
    forall k | 0 <= k < |line| ensures line[k] != '\n' {
      if k >= |d| + 2 {
        assert line[k] == sample[k - |d| - 2];
      } else if k < |d| {
        assert line[k] == d[k];
      }
    }
    assert line[0] == d[0];
    assert line[|line| - 1] == sample[|sample| - 1];
    StripTrimmed(line);
    NumberingRemovedOnce(number, sample);
  }

  /** The reply parser without the cut to ten: split lines, kept content lines,
      numbering removed. */
  function Parse(content: string): seq<string>
  {
    CleanLines(ContentLines(SplitLines(content)))
  }

  /** An entry's line in front of the rest of the reply parses to its sample,
      followed by what the rest parses to. */
  lemma ParseEntry(number: nat, sample: string, tail: string)
    requires WellFormedSample(sample)
    ensures Parse(Entry(number, sample) + tail) == [sample] + Parse(tail)
  {
    var line := DecimalString(number) + ". " + sample;
    EntryLineParses(number, sample);
    SplitAfterLine(line, tail);
    assert Entry(number, sample) + tail == line + "\n" + tail;
    var split := SplitLines(tail);
    assert ([line] + split)[1..] == split;
    var content := ContentLines(split);
    assert ContentLines([line] + split) == [line] + content;
    assert ([line] + content)[1..] == content;
  }

  lemma EmptyReplyParses()
    ensures Parse("") == []
  {
    assert SplitLines("") == [""];
    assert Strip("") == "";
  }

  lemma WellFormedTail(samples: seq<string>)
    requires samples != []
    requires forall i :: 0 <= i < |samples| ==> WellFormedSample(samples[i])
    ensures WellFormedSample(samples[0])
    ensures forall i :: 0 <= i < |samples[1..]| ==> WellFormedSample(samples[1..][i])
  {
    forall i | 0 <= i < |samples[1..]| ensures WellFormedSample(samples[1..][i]) {
      assert samples[1..][i] == samples[i + 1];
    }
  }

  /** The numbered entries of well-formed samples parse back to the samples. */
  lemma {:induction false} NumberedListParses(samples: seq<string>, first: nat)
    requires forall i :: 0 <= i < |samples| ==> WellFormedSample(samples[i])
    ensures Parse(NumberedFrom(samples, first)) == samples
    decreases |samples|
  {
    if samples == [] {
      EmptyReplyParses();
    } else {
      var rest := samples[1..];
      var tail := NumberedFrom(rest, first + 1);
      assert NumberedFrom(samples, first) == Entry(first, samples[0]) + tail;
      WellFormedTail(samples);
      ParseEntry(first, samples[0], tail);
      NumberedListParses(rest, first + 1);
      assert [samples[0]] + rest == samples;
    }
  }

  /** The parser reads the reference list back: a numbered list of well-formed
      samples, in the format the prompt shows, parses to its first ten samples. */
  lemma ReferenceListReadsBack(samples: seq<string>, sampleCount: nat)
    requires samples != []
    requires forall i :: 0 <= i < |samples| ==> WellFormedSample(samples[i])
    ensures ReferenceHeader <= ReferenceText(samples, sampleCount)
    ensures ParsedJobs(ReferenceText(samples, sampleCount)[|ReferenceHeader|..]) ==
      Take(samples, Min(sampleCount, MaxJobs))
  {
    var chosen := Take(samples, sampleCount);
    assert ReferenceText(samples, sampleCount)[|ReferenceHeader|..] == NumberedFrom(chosen, 1);
    NumberedListParses(chosen, 1);
  }
}
