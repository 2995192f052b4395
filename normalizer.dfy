/** Keyword extraction and synonym normalisation of the industry and department
    labels a caller types in (app.py, `extract_keywords`, `normalize_industry`,
    `normalize_department`). */
module Normalizer {
  import opened PyStr

  /** Removed from a label in this order; `"業界"` goes before `"の"`, so removing
      `"の"` can create a fresh `"業界"` that stays. */
  const StopWords: seq<string> :=
    ["業界", "部門", "担当", "関連", "系", "分野", "の", "する", "を", "に", "で", "は"]

  /** Industry synonyms, mapped to the spelling the corpus uses. */
  const IndustrySynonyms: map<string, string> := map[
    "製薬" := "医薬品",
    "薬" := "医薬品",
    "医療" := "医薬品",
    "ファーマ" := "医薬品",
    "おもちゃ" := "玩具"
  ]

  /** Department synonyms, mapped to the spelling the corpus uses. */
  const DepartmentSynonyms: map<string, string> := map[
    "戦略" := "経営企画",
    "企画" := "経営企画",
    "経営管理" := "経営企画",
    "経営" := "経営企画",
    "販売" := "営業",
    "セールス" := "営業",
    "マーケ" := "マーケティング",
    "人材" := "人事",
    "HR" := "人事",
    "経理" := "財務",
    "会計" := "財務",
    "開発" := "製品開発(R&D)",
    "研究" := "製品開発(R&D)",
    "R&D" := "製品開発(R&D)",
    "研究開発" := "製品開発(R&D)",
    "IT" := "システム",
    "情報システム" := "システム",
    "法務" := "法務・知財",
    "知財" := "法務・知財",
    "品質" := "品質管理",
    "QA" := "品質管理",
    "購買" := "調達",
    "資材" := "調達",
    "生産" := "製造",
    "工場" := "製造"
  ]

  predicate NonEmptyWords(ws: seq<string>) {
    forall k :: 0 <= k < |ws| ==> ws[k] != []
  }

  /** `s` after `s = s.replace(w, '')` for each `w` of `ws`, in order. Every
      one-character word is absent from the result. */
  function RemoveWords(s: string, ws: seq<string>): (r: string)
    requires NonEmptyWords(ws)
    ensures |r| <= |s|
    ensures forall i :: 0 <= i < |r| ==> r[i] in s
    ensures forall k :: 0 <= k < |ws| && |ws[k]| == 1 ==> ws[k][0] !in r
  {
    if ws == [] then s
    else
      var front := ws[..|ws| - 1];
      var r := RemoveAll(RemoveWords(s, front), ws[|ws| - 1]);
      assert forall k :: 0 <= k < |front| ==> front[k] == ws[k];
      r
  }

  lemma StopWordsNonEmpty()
    ensures NonEmptyWords(StopWords)
  {
  }

  /** The single-character stop words. */
  const SingleCharStopWords: set<char> := {'系', 'の', 'を', 'に', 'で', 'は'}

  /** What `extract_keywords(text)` returns: "" for empty input; otherwise the
      stripped text with every stop word cut out, stripped again. The result is
      trimmed, no longer than the input, and free of every one-character stop
      word (in particular of `は`, whose removal comes last). */
  function Keywords(text: string): (r: string)
    ensures text == "" ==> r == ""
    ensures IsTrimmed(r)
    ensures |r| <= |text|
    ensures forall c :: c in SingleCharStopWords ==> c !in r
  {
    if text == "" then ""
    else
      var removed := RemoveWords(Strip(text), StopWords);
      SingleCharStopWordsRemoved(Strip(text));
      StripKeepsOut(removed);
      Strip(removed)
  }

  lemma SingleCharStopWordsRemoved(s: string)
    ensures forall c :: c in SingleCharStopWords ==> c !in RemoveWords(s, StopWords)
  {
    var ws := StopWords;
    assert ws[4][0] == '系' && |ws[4]| == 1;
    assert ws[6][0] == 'の' && |ws[6]| == 1;
    assert ws[8][0] == 'を' && |ws[8]| == 1;
    assert ws[9][0] == 'に' && |ws[9]| == 1;
    assert ws[10][0] == 'で' && |ws[10]| == 1;
    assert ws[11][0] == 'は' && |ws[11]| == 1;
  }

  /** Stripping never brings in a character. */
  lemma StripKeepsOut(s: string)
    ensures forall c :: c !in s ==> c !in Strip(s)
  {
    var r := Strip(s);
    forall i | 0 <= i < |r| ensures r[i] in s {
      assert r[i] == s[StripStart(s) + i];
    }
  }

  /** `extract_keywords`: reassigns the working string once per stop word. */
  method ExtractKeywords(text: string) returns (keywords: string)
    ensures keywords == Keywords(text)
    ensures 'は' !in keywords
  {
    if text == "" {
      return "";
    }
    keywords := Strip(text);
    StopWordsNonEmpty();
    for i := 0 to |StopWords|
      invariant NonEmptyWords(StopWords[..i])
      invariant keywords == RemoveWords(Strip(text), StopWords[..i])
    {
      assert StopWords[..i + 1][..i] == StopWords[..i];
      keywords := RemoveAll(keywords, StopWords[i]);
    }
    assert StopWords[..|StopWords|] == StopWords;
    keywords := Strip(keywords);
  }

  lemma {:induction false} RemoveAbsent(s: string, w: string)
    requires w != [] && w[0] !in s
    ensures RemoveAll(s, w) == s
    decreases |s|
  {
    if |s| >= |w| {
      assert !(w <= s) by { assert s[0] != w[0]; }
      RemoveAbsent(s[1..], w);
      assert s == [s[0]] + s[1..];
    }
  }

  lemma {:induction false} RemoveWordsAppend(s: string, a: seq<string>, b: seq<string>)
    requires NonEmptyWords(a) && NonEmptyWords(b)
    ensures NonEmptyWords(a + b)
    ensures RemoveWords(s, a + b) == RemoveWords(RemoveWords(s, a), b)
    decreases |b|
  {
    if b != [] {
      var b' := b[..|b| - 1];
      assert (a + b)[..|a + b| - 1] == a + b';
      RemoveWordsAppend(s, a, b');
    } else {
      assert a + b == a;
    }
  }

  lemma {:induction false} RemoveWordsAbsent(s: string, ws: seq<string>)
    requires NonEmptyWords(ws)
    requires forall k :: 0 <= k < |ws| ==> ws[k][0] !in s
    ensures RemoveWords(s, ws) == s
  {
    if ws != [] {
      var front := ws[..|ws| - 1];
      RemoveWordsAbsent(s, front);
      RemoveAbsent(s, ws[|ws| - 1]);
    }
  }

  lemma RemoveBusinessFromSample()
    ensures RemoveAll("業の界", "業界") == "業の界"
  {
    var s, w := "業の界", "業界";
    assert !(w <= s) by { assert w[1] != s[1]; }
    assert !(w <= s[1..]) by { assert w[0] != s[1..][0]; }
    assert RemoveAll(s[2..], w) == s[2..];
    assert RemoveAll(s[1..], w) == [s[1]] + s[2..];
  }

  lemma RemoveNoFromSample()
    ensures RemoveAll("業の界", "の") == "業界"
  {
    var s, w := "業の界", "の";
    assert !(w <= s) by { assert w[0] != s[0]; }
    assert w <= s[1..];
    assert !(w <= s[2..]) by { assert w[0] != s[2..][0]; }
    assert RemoveAll(s[3..], w) == [];
    assert RemoveAll(s[2..], w) == s[2..];
  }

  lemma FirstSixStopWordsOnSample()
    ensures RemoveWords("業の界", StopWords[..6]) == "業の界"
  {
    var s := "業の界";
    var first, rest := ["業界"], ["部門", "担当", "関連", "系", "分野"];
    assert StopWords[..6] == first + rest;
    RemoveWordsAppend(s, first, rest);
    RemoveBusinessFromSample();
    assert RemoveWords(s, first) == RemoveAll(s, "業界");
    assert forall k :: 0 <= k < |rest| ==> rest[k][0] !in s by {
      assert s == ['業', 'の', '界'];
    }
    RemoveWordsAbsent(s, rest);
  }

  lemma LastFiveStopWordsOnBusiness()
    ensures RemoveWords("業界", StopWords[7..]) == "業界"
  {
    var ws := StopWords[7..];
    assert ws == ["する", "を", "に", "で", "は"];
    assert forall k :: 0 <= k < |ws| ==> ws[k][0] !in "業界";
    RemoveWordsAbsent("業界", ws);
  }

  lemma StopWordsOnBusiness()
    ensures RemoveWords("業界", StopWords) == ""
  {
    var ws := StopWords;
    assert ws[..1] + ws[1..] == ws;
    assert ws[..1] == ["業界"];
    assert ws[1..] == ["部門", "担当", "関連", "系", "分野", "の", "する", "を", "に", "で", "は"];
    RemoveWordsAppend("業界", ws[..1], ws[1..]);
    assert RemoveWords("業界", ws[..1]) == RemoveAll("業界", "業界");
    assert RemoveAll("業界", "業界") == RemoveAll("", "業界");
    RemoveWordsAbsent("", ws[1..]);
  }

  lemma FirstSevenStopWordsOnSample()
    ensures RemoveWords("業の界", StopWords[..7]) == "業界"
  {
    var s := "業の界";
    var before, the := StopWords[..6], StopWords[6..7];
    assert StopWords[..7] == before + the;
    assert the == ["の"];
    FirstSixStopWordsOnSample();
    RemoveNoFromSample();
    RemoveWordsAppend(s, before, the);
  }

  lemma StopWordsOnSample()
    ensures RemoveWords("業の界", StopWords) == "業界"
  {
    var s := "業の界";
    var front, after := StopWords[..7], StopWords[7..];
    assert StopWords == front + after;
    assert after == ["する", "を", "に", "で", "は"];
    FirstSevenStopWordsOnSample();
    RemoveWordsAppend(s, front, after);
    LastFiveStopWordsOnBusiness();
  }

  lemma KeywordsOfSample()
    ensures Keywords("業の界") == "業界"
  {
    StripTrimmed("業の界");
    StopWordsOnSample();
    StripTrimmed("業界");
  }

  lemma KeywordsOfBusiness()
    ensures Keywords("業界") == ""
  {
    StripTrimmed("業界");
    StopWordsOnBusiness();
  }

  /** Extraction is not idempotent: in `"業の界"` the word `"業界"` only appears
      once `"の"` is gone, and `"業界"` was removed before `"の"`. */
  lemma KeywordsNotIdempotent()
    ensures Keywords("業の界") == "業界"
    ensures Keywords(Keywords("業の界")) == ""
  {
    KeywordsOfSample();
    KeywordsOfBusiness();
  }

  /** A synonym table whose every canonical term is a non-empty, trimmed string. */
  predicate CanonicalTable(table: map<string, string>) {
    forall k :: k in table ==> table[k] != "" && IsTrimmed(table[k])
  }

  /** `normalize_industry` / `normalize_department` against `table`: "" for an
      empty value; the table's entry for the stripped value when there is one
      and it is not empty (never the extracted keywords); otherwise the
      extracted keywords. Over a canonical table the result is trimmed. */
  function NormalizeWith(table: map<string, string>, value: string): (r: string)
    ensures value == "" ==> r == ""
    ensures value != "" && Strip(value) in table && table[Strip(value)] != "" ==> r == table[Strip(value)]
    ensures value != "" && (Strip(value) !in table || table[Strip(value)] == "") ==> r == Keywords(value)
    ensures CanonicalTable(table) ==> IsTrimmed(r)
  {
    if value == "" then ""
    else if Strip(value) in table && table[Strip(value)] != "" then table[Strip(value)]
    else Keywords(value)
  }

  lemma IndustryTableCanonical()
    ensures CanonicalTable(IndustrySynonyms)
  {
    assert forall k :: k in IndustrySynonyms ==> IndustrySynonyms[k] in {"医薬品", "玩具"};
  }

  /** Every value of the department table is one of the canonical departments. */
  lemma DepartmentTableValues()
    ensures forall k :: k in DepartmentSynonyms ==>
      DepartmentSynonyms[k] == "経営企画"
      || DepartmentSynonyms[k] == "営業"
      || DepartmentSynonyms[k] == "マーケティング"
      || DepartmentSynonyms[k] == "人事"
      || DepartmentSynonyms[k] == "財務"
      || DepartmentSynonyms[k] == "製品開発(R&D)"
      || DepartmentSynonyms[k] == "システム"
      || DepartmentSynonyms[k] == "法務・知財"
      || DepartmentSynonyms[k] == "品質管理"
      || DepartmentSynonyms[k] == "調達"
      || DepartmentSynonyms[k] == "製造"
  {
  }

  /** The canonical departments are non-empty, trimmed terms. */
  lemma DepartmentTermsTrimmed()
    ensures IsTrimmed("経営企画")
    ensures IsTrimmed("営業")
    ensures IsTrimmed("マーケティング")
    ensures IsTrimmed("人事")
    ensures IsTrimmed("財務")
    ensures IsTrimmed("製品開発(R&D)")
    ensures IsTrimmed("システム")
    ensures IsTrimmed("法務・知財")
    ensures IsTrimmed("品質管理")
    ensures IsTrimmed("調達")
    ensures IsTrimmed("製造")
  {
  }

  /** Every canonical department is a non-empty, trimmed term. */
  lemma DepartmentTableCanonical()
    ensures CanonicalTable(DepartmentSynonyms)
  {
    DepartmentTableValues();
    DepartmentTermsTrimmed();
  }

  /** `normalize_industry`: a trimmed term; a synonym's canonical industry whenever
      the stripped value is a synonym. */
  function NormalizeIndustry(value: string): (r: string)
    ensures IsTrimmed(r)
    ensures value == "" ==> r == ""
    ensures value != "" && Strip(value) in IndustrySynonyms ==> r == IndustrySynonyms[Strip(value)]
    ensures value != "" && Strip(value) !in IndustrySynonyms ==> r == Keywords(value)
  {
    IndustryTableCanonical();
    NormalizeWith(IndustrySynonyms, value)
  }

  /** `normalize_department`: a trimmed term; a synonym's canonical department
      whenever the stripped value is a synonym. */
  function NormalizeDepartment(value: string): (r: string)
    ensures IsTrimmed(r)
    ensures value == "" ==> r == ""
    ensures value != "" && Strip(value) in DepartmentSynonyms ==> r == DepartmentSynonyms[Strip(value)]
    ensures value != "" && Strip(value) !in DepartmentSynonyms ==> r == Keywords(value)
  {
    DepartmentTableCanonical();
    NormalizeWith(DepartmentSynonyms, value)
  }

  lemma StripOfPharmaceuticals()
    ensures Strip("製薬") == "製薬"
  {
    StripTrimmed("製薬");
  }

  /** An exact synonym key gives the canonical term. */
  lemma PharmaceuticalsSynonym()
    ensures NormalizeIndustry("製薬") == "医薬品"
  {
    StripOfPharmaceuticals();
  }

  lemma HumanResourcesSynonym()
    ensures NormalizeDepartment("HR") == "人事"
  {
    StripTrimmed("HR");
    assert "HR" in DepartmentSynonyms && DepartmentSynonyms["HR"] == "人事";
  }

  lemma StripOfToys()
    ensures Strip(" おもちゃ ") == "おもちゃ"
  {
    var s := " おもちゃ ";
    assert SpaceEnd(s, 1) == 1;
    assert StripStart(s) == 1;
    assert SpaceStart(s, 1, 5) == 5;
    assert StripEnd(s) == 5;
    assert s[1..5] == "おもちゃ";
  }

  /** The key is looked up after stripping the value. */
  lemma SynonymKeyIsStripped()
    ensures NormalizeIndustry(" おもちゃ ") == "玩具"
  {
    StripOfToys();
  }

  lemma RemoveBusinessFromPharmaIndustry()
    ensures RemoveAll("製薬業界", "業界") == "製薬"
  {
    var w := "業界";
    var s := "製薬" + w;
    assert s == "製薬業界";
    assert !(w <= s) by { assert w[0] != s[0]; }
    assert !(w <= s[1..]) by { assert w[0] != s[1..][0]; }
    assert s[2..] == w;
    assert RemoveAll(w, w) == RemoveAll([], w);
    assert RemoveAll(s[1..], w) == [s[1]];
  }

  lemma StopWordsAfterFirstKeepPharmaceuticals()
    ensures NonEmptyWords(StopWords[1..])
    ensures RemoveWords("製薬", StopWords[1..]) == "製薬"
  {
    assert forall k :: 0 <= k < |StopWords[1..]| ==> StopWords[1..][k][0] !in "製薬" by {
      assert "製薬" == ['製', '薬'];
    }
    RemoveWordsAbsent("製薬", StopWords[1..]);
  }

  lemma StopWordsOnPharmaIndustry()
    ensures RemoveWords("製薬業界", StopWords) == "製薬"
  {
    var s := "製薬業界";
    var first, rest := StopWords[..1], StopWords[1..];
    assert StopWords == first + rest;
    assert first == ["業界"];
    RemoveBusinessFromPharmaIndustry();
    StopWordsAfterFirstKeepPharmaceuticals();
    RemoveWordsAppend(s, first, rest);
  }

  lemma KeywordsOfPharmaIndustry()
    ensures Keywords("製薬業界") == "製薬"
  {
    StripTrimmed("製薬業界");
    StopWordsOnPharmaIndustry();
    StripOfPharmaceuticals();
  }

  /** The synonym table is consulted before extraction only: once extraction
      has cut `"業界"` from `"製薬業界"`, the synonym of `"製薬"` is not applied. */
  lemma SynonymNotAppliedAfterExtraction()
    ensures NormalizeIndustry("製薬業界") == "製薬"
  {
    PharmaIndustryIsNoSynonym();
    StripTrimmed("製薬業界");
    KeywordsOfPharmaIndustry();
  }

  lemma PharmaIndustryIsNoSynonym()
    ensures "製薬業界" !in IndustrySynonyms
  {
  }
}
