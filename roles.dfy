/** Classification of a free-text position as management or staff
    (app.py, `infer_position_category`). */
module Roles {
  import opened PyStr
  import opened Normalizer

  const ManagementPositions: seq<string> := [
    "部長", "マネージャー", "CFO", "社長", "取締役", "役員", "統括",
    "部門長", "課長", "GM", "ゼネラルマネージャー", "ディレクター",
    "VP", "本部長", "事業部長", "支店長", "所長", "manager", "director",
    "chief", "head", "president", "vice president", "executive"
  ]

  const StaffPositions: seq<string> := [
    "スタッフ", "社員", "担当", "メンバー", "アシスタント", "アソシエイト",
    "スペシャリスト", "コーディネーター", "staff", "associate", "specialist",
    "coordinator", "assistant", "member", "employee"
  ]

  const ManagerLabel: string := "管理職"
  const StaffLabel: string := "スタッフ"

  /** The lower-cased text the keyword lists are compared with: the extracted
      keywords, or the whole position when extraction leaves nothing. */
  function SearchKey(position: string): (key: string)
    ensures position != "" ==> key != ""
  {
    var extracted := Keywords(position);
    if extracted != "" then ToLower(extracted) else ToLower(position)
  }

  /** The two-way test: the lower-cased keyword occurs in `key`, or `key` occurs
      in the lower-cased keyword. */
  predicate TwoWayMatch(key: string, keyword: string) {
    Contains(key, ToLower(keyword)) || Contains(ToLower(keyword), key)
  }

  /** The search loop over `keywords`, true at the first keyword that matches. */
  function AnyMatch(key: string, keywords: seq<string>): (found: bool)
    ensures found <==> exists i :: 0 <= i < |keywords| && TwoWayMatch(key, keywords[i])
  {
    if keywords == [] then false
    else if TwoWayMatch(key, keywords[0]) then true
    else
      var found := AnyMatch(key, keywords[1..]);
      assert found ==> exists i :: 0 <= i < |keywords| && TwoWayMatch(key, keywords[i]) by {
        if found {
          var j :| 0 <= j < |keywords[1..]| && TwoWayMatch(key, keywords[1..][j]);
          assert keywords[j + 1] == keywords[1..][j];
        }
      }
      assert (exists i :: 0 <= i < |keywords| && TwoWayMatch(key, keywords[i])) ==> found by {
        if exists i :: 0 <= i < |keywords| && TwoWayMatch(key, keywords[i]) {
          var i :| 0 <= i < |keywords| && TwoWayMatch(key, keywords[i]);
          assert i != 0;
          assert keywords[1..][i - 1] == keywords[i];
        }
      }
      found
  }

  /** `infer_position_category`: "" exactly for the empty position; otherwise
      "管理職" exactly when some management keyword matches (staff keywords are
      only looked at afterwards), and "スタッフ" in every other case, matched or
      not. */
  function InferPositionCategory(position: string): (r: string)
    ensures r == "" <==> position == ""
    ensures position != "" ==> r == ManagerLabel || r == StaffLabel
    ensures r == ManagerLabel <==>
      position != "" &&
      exists i :: 0 <= i < |ManagementPositions| && TwoWayMatch(SearchKey(position), ManagementPositions[i])
  {
    if position == "" then ""
    else if AnyMatch(SearchKey(position), ManagementPositions) then ManagerLabel
    else if AnyMatch(SearchKey(position), StaffPositions) then StaffLabel
    else StaffLabel
  }

  lemma KeywordsOfTrimmedPlainWord(s: string)
    requires s != [] && IsTrimmed(s)
    requires forall k :: 0 <= k < |StopWords| ==> StopWords[k][0] !in s
    ensures Keywords(s) == s
  {
    StripTrimmed(s);
    RemoveWordsAbsent(s, StopWords);
  }

  predicate IsKatakana(c: char) {
    '\U{30A0}' <= c <= '\U{30FF}'
  }

  lemma StopWordsAreNotKatakana()
    ensures forall k :: 0 <= k < |StopWords| ==> !IsKatakana(StopWords[k][0])
  {
  }

  lemma AssistantManagerKey()
    ensures SearchKey("アシスタントマネージャー") == "アシスタントマネージャー"
  {
    var p := "アシスタントマネージャー";
    StopWordsAreNotKatakana();
    assert forall i :: 0 <= i < |p| ==> IsKatakana(p[i]);
    assert IsTrimmed(p);
    KeywordsOfTrimmedPlainWord(p);
    LowerKeeps(p);
  }

  lemma AssistantManagerHoldsManager()
    ensures TwoWayMatch("アシスタントマネージャー", ManagementPositions[1])
  {
    var staff, manager := "アシスタント", "マネージャー";
    assert ManagementPositions[1] == manager;
    LowerKeeps(manager);
    ContainsInfix(staff, manager, "");
    assert staff + manager + "" == "アシスタントマネージャー";
  }

  lemma AssistantManagerHoldsAssistant()
    ensures Contains("アシスタントマネージャー", StaffPositions[4])
  {
    var staff, manager := "アシスタント", "マネージャー";
    assert StaffPositions[4] == staff;
    ContainsInfix("", staff, manager);
    assert "" + staff + manager == "アシスタントマネージャー";
  }

  /** Management keywords are tried first: "アシスタントマネージャー" holds the
      staff keyword "アシスタント" and still classifies as management. */
  lemma AssistantManagerIsManagement()
    ensures Contains("アシスタントマネージャー", StaffPositions[4])
    ensures InferPositionCategory("アシスタントマネージャー") == ManagerLabel
  {
    AssistantManagerKey();
    AssistantManagerHoldsManager();
    AssistantManagerHoldsAssistant();
  }

  lemma BlankKey()
    ensures SearchKey(" ") == " "
  {
    assert StripStart(" ") == 1;
    assert Strip(" ") == "";
    RemoveWordsAbsent("", StopWords);
    assert Keywords(" ") == "";
  }

  lemma BlankOccursInVicePresident()
    ensures TwoWayMatch(" ", ManagementPositions[22])
  {
    var vp := ManagementPositions[22];
    assert vp == "vice" + " " + "president";
    LowerKeeps(vp);
    ContainsInfix("vice", " ", "president");
  }

  /** A position of exactly one ASCII blank is not empty, extracts to nothing,
      and so is compared as " " itself, which occurs in "vice president". */
  lemma BlankPositionIsManagement()
    ensures InferPositionCategory(" ") == ManagerLabel
  {
    BlankKey();
    BlankOccursInVicePresident();
  }

  /** No whitespace anywhere in `s`. */
  predicate NoSpace(s: string) {
    forall i :: 0 <= i < |s| ==> !IsSpace(s[i])
  }

  /** Apart from "vice president", no management keyword is empty or holds
      whitespace; stated over four runs of the list to keep each proof small. */
  lemma SpacingRun1()
    ensures forall k :: 0 <= k < 6 ==> ManagementPositions[k] != [] && NoSpace(ManagementPositions[k])
  {
  }

  lemma SpacingRun2()
    ensures forall k :: 6 <= k < 12 ==> ManagementPositions[k] != [] && NoSpace(ManagementPositions[k])
  {
  }

  lemma SpacingRun3()
    ensures forall k :: 12 <= k < 18 ==> ManagementPositions[k] != [] && NoSpace(ManagementPositions[k])
  {
  }

  lemma SpacingRun4()
    ensures forall k :: 18 <= k < 24 && k != 22 ==>
      ManagementPositions[k] != [] && NoSpace(ManagementPositions[k])
  {
  }

  lemma LowerNoSpace(s: string)
    requires NoSpace(s)
    ensures NoSpace(ToLower(s))
  {
  }

  /** A blank key, whatever its blanks, matches no keyword that holds no
      whitespace, in either direction. */
  lemma BlankMissesPlainKeyword(key: string, keyword: string)
    requires key != [] && AllSpace(key)
    requires NoSpace(keyword) && keyword != []
    ensures !TwoWayMatch(key, keyword)
  {
    LowerNoSpace(keyword);
    var lowered := ToLower(keyword);
    AbsentHead(key, lowered);
    AbsentHead(lowered, key);
  }

  /** Every blank in `w` is a lone ASCII space: none at either end, none next
      to another blank. */
  predicate LoneSpaces(w: string) {
    w != [] && !IsSpace(w[0]) &&
    forall j :: 0 <= j < |w| && IsSpace(w[j]) ==>
      w[j] == ' ' && j + 1 < |w| && !IsSpace(w[j + 1])
  }

  /** A blank key other than " " matches no lower-case word whose blanks are
      lone ASCII spaces, in either direction. */
  lemma BlankMissesLoneSpaces(key: string, w: string)
    requires key != [] && AllSpace(key) && key != " "
    requires LoneSpaces(w) && ToLower(w) == w
    ensures !TwoWayMatch(key, w)
  {
    AbsentHead(key, w);
    ContainsAt(w, key);
    if Contains(w, key) {
      var i :| OccursAt(w, key, i);
      BlankOccurrenceIsSpace(key, w, i);
    }
  }

  /** The only blank key that occurs in a word with lone spaces is " ". */
  lemma BlankOccurrenceIsSpace(key: string, w: string, i: int)
    requires key != [] && AllSpace(key)
    requires LoneSpaces(w) && OccursAt(w, key, i)
    ensures key == " "
  {
    // the second blank of a longer key, if any, would sit on w[i + 1]
    var t := if |key| > 1 then 1 else 0;
    assert key[0] == w[i] && key[t] == w[i + t];
  }

  /** Two blank-free words joined by one ASCII space have lone spaces only. */
  lemma JoinedLoneSpaces(a: string, b: string)
    requires a != [] && b != [] && NoSpace(a) && NoSpace(b)
    ensures LoneSpaces(a + " " + b)
  {
    var w := a + " " + b;
    forall j | 0 <= j < |w| && IsSpace(w[j])
      ensures w[j] == ' ' && j + 1 < |w| && !IsSpace(w[j + 1])
    {
      assert w[j + 1] == b[0];
    }
  }

  lemma VicePresidentWords()
    ensures NoSpace("vice") && NoSpace("president")
  {
  }

  lemma VicePresidentLoneSpace()
    ensures LoneSpaces("vice president")
  {
    VicePresidentWords();
    assert "vice president" == "vice" + " " + "president";
    JoinedLoneSpaces("vice", "president");
  }

  /** A blank position other than a single " " extracts to nothing and is
      compared as itself. */
  lemma BlankSearchKey(position: string)
    requires position != [] && AllSpace(position)
    ensures SearchKey(position) == position
  {
    StripEmpty(position);
    RemoveWordsAbsent("", StopWords);
    LowerKeeps(position);
  }

  /** Every blank position but " " — two blanks, a tab, the ideographic blank —
      matches no management keyword and so falls to スタッフ. */
  lemma OtherBlankPositionIsStaff(position: string)
    requires position != [] && AllSpace(position) && position != " "
    ensures InferPositionCategory(position) == StaffLabel
  {
    BlankSearchKey(position);
    SpacingRun1();
    SpacingRun2();
    SpacingRun3();
    SpacingRun4();
    forall k | 0 <= k < |ManagementPositions|
      ensures !TwoWayMatch(position, ManagementPositions[k])
    {
      if k == 22 {
        assert ManagementPositions[22] == "vice president";
        VicePresidentLoneSpace();
        LowerKeeps("vice president");
        BlankMissesLoneSpaces(position, "vice president");
      } else {
        BlankMissesPlainKeyword(position, ManagementPositions[k]);
      }
    }
  }

  /** Extraction does not shorten "マネージャー職" to "マネージャー": 職 is no stop word. */
  lemma ManagerRoleKeepsSuffix()
    ensures Keywords("マネージャー職") == "マネージャー職"
  {
    var p := "マネージャー職";
    StopWordsAreNotKatakana();
    assert forall i :: 0 <= i < |p| - 1 ==> IsKatakana(p[i]);
    assert p[|p| - 1] == '職';
    assert IsTrimmed(p);
    KeywordsOfTrimmedPlainWord(p);
  }
}
