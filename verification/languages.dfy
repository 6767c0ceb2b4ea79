/**
  The multi-language detector: fifteen languages, tried in a fixed order, each
  with a script (character ranges and single characters), heading words and
  numbered-question patterns. The first language that recognises the text
  decides its level.
*/
module Languages {
  import opened Common
  import opened Text
  import opened Matching
  import opened Blocks

  /** The pattern `prefix\s*\d+\s*suffix`, searched case-insensitively
      (`prefix\s*\d+` when `suffix` is empty). */
  datatype QuestionPattern = QuestionPattern(prefix: string, suffix: string)

  datatype Language = Language(
    name: string,
    ranges: seq<(char, char)>,
    letters: string,
    headingWords: seq<string>,
    questions: seq<QuestionPattern>)

  /** The languages in the order they are tried. */
  const LanguageTable: seq<Language> := [
    Language("japanese",
      [('\U{3040}', '\U{309F}'), ('\U{30A0}', '\U{30FF}'), ('\U{4E00}', '\U{9FAF}')],
      "",
      ["問題", "質問", "説明", "セクション", "部分", "章", "節", "項目", "本問題集は", "合計"],
      [QuestionPattern("問", ""), QuestionPattern("質問", ""), QuestionPattern("第", "章"), QuestionPattern("第", "節")]),
    Language("chinese",
      [('\U{4E00}', '\U{9FAF}'), ('\U{3400}', '\U{4DBF}')],
      "",
      ["问题", "問題", "章节", "章節", "部分", "节", "節", "题目", "題目", "说明", "說明", "总计", "總計"],
      [QuestionPattern("第", "章"), QuestionPattern("第", "节"), QuestionPattern("第", "節"), QuestionPattern("问题", ""), QuestionPattern("問題", "")]),
    Language("korean",
      [('\U{AC00}', '\U{D7AF}'), ('\U{1100}', '\U{11FF}'), ('\U{3130}', '\U{318F}')],
      "",
      ["문제", "질문", "설명", "섹션", "부분", "장", "절", "항목", "총계"],
      [QuestionPattern("문제", ""), QuestionPattern("질문", ""), QuestionPattern("제", "장"), QuestionPattern("제", "절")]),
    Language("arabic",
      [('\U{600}', '\U{6FF}'), ('\U{750}', '\U{77F}'), ('\U{8A0}', '\U{8FF}')],
      "",
      ["سؤال", "مشكلة", "قسم", "فصل", "باب", "موضوع", "تعليمات", "مجموع"],
      [QuestionPattern("سؤال", ""), QuestionPattern("السؤال", ""), QuestionPattern("الفصل", ""), QuestionPattern("القسم", "")]),
    Language("hebrew",
      [('\U{590}', '\U{5FF}')],
      "",
      ["שאלה", "בעיה", "חלק", "פרק", "סעיף", "נושא", "הוראות", "סך הכל"],
      [QuestionPattern("שאלה", ""), QuestionPattern("פרק", ""), QuestionPattern("חלק", "")]),
    Language("hindi",
      [('\U{900}', '\U{97F}')],
      "",
      ["प्रश्न", "समस्या", "भाग", "अध्याय", "खंड", "विषय", "निर्देश", "कुल", "हिंदी", "कक्षा", "प्रतिदर्श", "पत्र", "गद्यांश", "काव्यांश", "उत्तर", "कीजिए", "व्याख्या", "सप्रसंग", "अथवा", "परिचय", "रचनाओं", "विशेषताओं", "iz'u", "i=k", "¯gnh", "d{kk", "izfrn'kZ", "x|ka'k", "dkO;ka'k", "mÙkj", "dhft,", "O;k[;k", "lizlax", "vFkok", "ifjp;", "jpukvksa", "fo'ks\"krkvksa", "fuEufyf[kr", "roZQ", "lfgr", "varjk", "varjky"],
      [QuestionPattern("प्रश्न", ""), QuestionPattern("अध्याय", ""), QuestionPattern("भाग", ""), QuestionPattern("iz'u", ""), QuestionPattern("vè;k;", ""), QuestionPattern("Hkkx", "")]),
    Language("russian",
      [('\U{400}', '\U{4FF}')],
      "",
      ["вопрос", "проблема", "раздел", "глава", "часть", "тема", "инструкции", "всего"],
      [QuestionPattern("вопрос", ""), QuestionPattern("глава", ""), QuestionPattern("раздел", "")]),
    Language("greek",
      [('\U{370}', '\U{3FF}'), ('\U{1F00}', '\U{1FFF}')],
      "",
      ["ερώτηση", "πρόβλημα", "τμήμα", "κεφάλαιο", "μέρος", "θέμα", "οδηγίες", "σύνολο"],
      [QuestionPattern("ερώτηση", ""), QuestionPattern("κεφάλαιο", ""), QuestionPattern("τμήμα", "")]),
    Language("thai",
      [('\U{E00}', '\U{E7F}')],
      "",
      ["คำถาม", "ปัญหา", "ส่วน", "บท", "หัวข้อ", "คำแนะนำ", "รวม"],
      [QuestionPattern("คำถาม", ""), QuestionPattern("บท", ""), QuestionPattern("ส่วน", "")]),
    Language("vietnamese",
      [],
      "àáạảãâầấậẩẫăằắặẳẵèéẹẻẽêềếệểễìíịỉĩòóọỏõôồốộổỗơờớợởỡùúụủũưừứựửữỳýỵỷỹđÀÁẠẢÃÂẦẤẬẨẪĂẰẮẶẲẴÈÉẸẺẼÊỀẾỆỂỄÌÍỊỈĨÒÓỌỎÕÔỒỐỘỔỖƠỜỚỢỞỠÙÚỤỦŨƯỪỨỰỬỮỲÝỴỶỸĐ",
      ["câu hỏi", "vấn đề", "phần", "chương", "mục", "chủ đề", "hướng dẫn", "tổng cộng"],
      [QuestionPattern("câu", ""), QuestionPattern("chương", ""), QuestionPattern("phần", "")]),
    Language("german",
      [],
      "äöüßÄÖÜ",
      ["frage", "problem", "abschnitt", "kapitel", "teil", "thema", "anweisungen", "gesamt"],
      [QuestionPattern("frage", ""), QuestionPattern("kapitel", ""), QuestionPattern("abschnitt", "")]),
    Language("french",
      [],
      "àâäéèêëïîôöùûüÿçÀÂÄÉÈÊËÏÎÔÖÙÛÜŸÇ",
      ["question", "problème", "section", "chapitre", "partie", "sujet", "instructions", "total"],
      [QuestionPattern("question", ""), QuestionPattern("chapitre", ""), QuestionPattern("section", "")]),
    Language("spanish",
      [],
      "ñáéíóúüÑÁÉÍÓÚÜ",
      ["pregunta", "problema", "sección", "capítulo", "parte", "tema", "instrucciones", "total"],
      [QuestionPattern("pregunta", ""), QuestionPattern("capítulo", ""), QuestionPattern("sección", "")]),
    Language("portuguese",
      [],
      "ãõáéíóúâêîôûàèìòùçÃÕÁÉÍÓÚÂÊÎÔÛÀÈÌÒÙÇ",
      ["pergunta", "problema", "seção", "capítulo", "parte", "tópico", "instruções", "total"],
      [QuestionPattern("pergunta", ""), QuestionPattern("capítulo", ""), QuestionPattern("seção", "")]),
    Language("italian",
      [],
      "àèéìíîòóùúÀÈÉÌÍÎÒÓÙÚ",
      ["domanda", "problema", "sezione", "capitolo", "parte", "argomento", "istruzioni", "totale"],
      [QuestionPattern("domanda", ""), QuestionPattern("capitolo", ""), QuestionPattern("sezione", "")])
  ]

  predicate InScript(lang: Language, c: char) {
    (exists k :: 0 <= k < |lang.ranges| && lang.ranges[k].0 <= c <= lang.ranges[k].1)
    || c in lang.letters
  }

  /** Some character of `t` belongs to the script of `lang`. */
  predicate HasScript(lang: Language, t: string) {
    exists i :: 0 <= i < |t| && InScript(lang, t[i])
  }

  /** Some heading word occurs in the lower-cased text. */
  predicate HasHeadingWord(lang: Language, t: string) {
    ContainsAny(Lower(t), lang.headingWords)
  }

  /** One of the first four heading words (the main terms) occurs in the lower-cased text. */
  predicate HasMainWord(lang: Language, t: string) {
    ContainsAny(Lower(t), lang.headingWords[..Min(4, |lang.headingWords|)])
  }

  /** Where a match of `p` starting at `i` of the lower-cased text `lt` ends. */
  function QuestionEnd(lt: string, i: nat, p: QuestionPattern): Option<nat>
    requires i <= |lt|
  {
    var a :- Lit(lt, i, Lower(p.prefix));
    var b :- Plus(lt, RunEnd(lt, a, IsSpace), IsDigit);
    Lit(lt, RunEnd(lt, b, IsSpace), Lower(p.suffix))
  }

  /** Some question pattern of `lang` matches somewhere in `t`, ignoring case. */
  predicate HasQuestion(lang: Language, t: string) {
    var lt := Lower(t);
    exists k, i :: 0 <= k < |lang.questions| && 0 <= i <= |lt| && QuestionEnd(lt, i, lang.questions[k]).Some?
  }

  /** The level of a text that carries a question pattern or a main term. */
  function LengthLevel(n: nat): (l: Level)
    ensures l == H1 <==> 15 < n <= 50
    ensures l == H3 <==> n <= 15
  {
    if n > 50 then H2 else if n > 15 then H1 else H3
  }

  /**
    The level `lang` gives `t`, or `None` when `lang` does not recognise it (or
    recognises only its script in a text longer than 30 characters) and the next
    language is to be tried.
  */
  function LanguageLevel(lang: Language, t: string): Option<Level> {
    var script := HasScript(lang, t);
    var words := HasHeadingWord(lang, t);
    var question := HasQuestion(lang, t);
    if !(script || words || question) then None
    else if question || HasMainWord(lang, t) then Some(LengthLevel(|t|))
    else if words then Some(H2)
    else if script && |t| <= 30 then Some(H3)
    else None
  }

  /**
    A language gives a level only to a text carrying its script, a heading word
    or a question pattern. A question or a main term gives the length level, any
    other heading word H2, and the script alone H3 up to 30 characters.
  */
  lemma LanguageLevelCases(lang: Language, t: string)
    ensures var r := LanguageLevel(lang, t);
      && (r.Some? ==> HasScript(lang, t) || HasHeadingWord(lang, t) || HasQuestion(lang, t))
      && (HasQuestion(lang, t) || HasMainWord(lang, t) ==> r == Some(LengthLevel(|t|)))
      && (!HasQuestion(lang, t) && !HasMainWord(lang, t) && HasHeadingWord(lang, t) ==> r == Some(H2))
      && (!HasQuestion(lang, t) && !HasHeadingWord(lang, t) ==>
            (r.Some? <==> HasScript(lang, t) && |t| <= 30) && (r.Some? ==> r == Some(H3)))
      && (r == Some(H1) ==> 15 < |t| <= 50)
      && (r == Some(H3) ==> |t| <= 30)
      && (r.Some? && |t| > 50 ==> r == Some(H2))
  {
    MainWordIsHeadingWord(lang, t);
  }

  lemma MainWordIsHeadingWord(lang: Language, t: string)
    ensures HasMainWord(lang, t) ==> HasHeadingWord(lang, t)
  {
    var ws := lang.headingWords;
    var main := ws[..Min(4, |ws|)];
    ContainsAnyIff(Lower(t), main);
    ContainsAnyIff(Lower(t), ws);
    if HasMainWord(lang, t) {
      var k :| 0 <= k < |main| && Contains(Lower(t), main[k]);
      assert main[k] == ws[k];
    }
  }

  /**
    A chapter heading written with a Cyrillic capital is recognised by its
    main term: a text opening with "Глава" (as "Глава 1 Введение") lower-cases
    to one holding "глава", so the Russian entry gives it its length level,
    H1 from 16 to 50 characters.
  */
  lemma CapitalisedRussianHeading(t: string)
    requires 15 < |t| <= 50 && t[..5] == "Глава"
    ensures LanguageTable[6].name == "russian"
    ensures LanguageLevel(LanguageTable[6], t) == Some(H1)
  {
    var ru := LanguageTable[6];
    var main := ru.headingWords[..4];
    assert main[3] == "глава";
    GlavaLowers(t);
    ContainsAt(Lower(t), main[3], 0);
    ContainsAnyIff(Lower(t), main);
    MainWordGivesLengthLevel(ru, t);
  }

  /** A text opening with "Глава" lower-cases to one opening with "глава". */
  lemma GlavaLowers(t: string)
    requires |t| >= 5 && t[..5] == "Глава"
    ensures Lower(t)[..5] == "глава"
  {
    var lt := Lower(t);
    var p := t[..5];
    assert t[0] == p[0] && t[1] == p[1] && t[2] == p[2] && t[3] == p[3] && t[4] == p[4];
    LowerAt(t);
    GlavaLetters();
    assert lt[0] == 'г' && lt[1] == 'л' && lt[2] == 'а' && lt[3] == 'в' && lt[4] == 'а';
  }

  /** The letters of "Глава" under the case table. */
  lemma GlavaLetters()
    ensures LowerChar('Г') == 'г' && LowerChar('л') == 'л' && LowerChar('а') == 'а' && LowerChar('в') == 'в'
  {
  }

  /** A main term gives the length level whatever else the text holds. */
  lemma MainWordGivesLengthLevel(lang: Language, t: string)
    requires HasMainWord(lang, t)
    ensures LanguageLevel(lang, t) == Some(LengthLevel(|t|))
  {
    MainWordIsHeadingWord(lang, t);
  }

  /** The language a text was recognised as (`"unknown"`) and its level. */
  datatype Detection = Detection(language: string, level: Option<Level>)

  /** The first language of `table[i..]` that gives `t` a level. */
  function DetectFrom(table: seq<Language>, t: string, i: nat): Detection
    decreases |table| - i
  {
    if i >= |table| then Detection("unknown", None)
    else
      var l := LanguageLevel(table[i], t);
      if l.Some? then Detection(table[i].name, l) else DetectFrom(table, t, i + 1)
  }

  /** `_detect_language_and_classify`: the languages tried one after another. */
  method DetectLanguageAndClassify(t: string) returns (d: Detection)
    ensures d == DetectFrom(LanguageTable, t, 0)
  {
    var i := 0;
    while i < |LanguageTable|
      invariant 0 <= i <= |LanguageTable|
      invariant DetectFrom(LanguageTable, t, i) == DetectFrom(LanguageTable, t, 0)
    {
      var l := LanguageLevel(LanguageTable[i], t);
      if l.Some? {
        return Detection(LanguageTable[i].name, l);
      }
      i := i + 1;
    }
    return Detection("unknown", None);
  }

  /** The text is "unknown", with no level, exactly when no language gives it one. */
  lemma {:induction false} DetectNoneIff(table: seq<Language>, t: string, i: nat)
    requires i <= |table|
    ensures DetectFrom(table, t, i).level.None? <==> forall k :: i <= k < |table| ==> LanguageLevel(table[k], t).None?
    ensures DetectFrom(table, t, i).level.None? ==> DetectFrom(table, t, i).language == "unknown"
    decreases |table| - i
  {
    if i < |table| {
      DetectNoneIff(table, t, i + 1);
      DetectStep(table, t, i);

    }
  }

  /** A detected level is the verdict of the first language that gives one,
      under that language's name. */
  lemma {:induction false} DetectIsFirstMatch(table: seq<Language>, t: string, i: nat) returns (k: nat)
    requires i <= |table|
    requires DetectFrom(table, t, i).level.Some?
    ensures i <= k < |table|
    ensures DetectFrom(table, t, i) == Detection(table[k].name, LanguageLevel(table[k], t))
    ensures forall j :: i <= j < k ==> LanguageLevel(table[j], t).None?
    decreases |table| - i
  {
    DetectStep(table, t, i);
    if LanguageLevel(table[i], t).Some? {
      k := i;
    } else {
      k := DetectIsFirstMatch(table, t, i + 1);
    }
  }

  lemma DetectStep(table: seq<Language>, t: string, i: nat)
    requires i < |table|
    ensures var l := LanguageLevel(table[i], t);
            DetectFrom(table, t, i) == if l.Some? then Detection(table[i].name, l) else DetectFrom(table, t, i + 1)
  {
  }

  /** Level bounds by length hold for the detector as a whole: H1 only for
      16 to 50 characters, H3 only up to 30, and a longer text is only ever H2. */
  lemma DetectedLevelBounds(table: seq<Language>, t: string)
    ensures var l := DetectFrom(table, t, 0).level;
      (l == Some(H1) ==> 15 < |t| <= 50)
      && (l == Some(H3) ==> |t| <= 30)
      && (l.Some? && |t| > 50 ==> l == Some(H2))
  {
    if DetectFrom(table, t, 0).level.Some? {
      var k := DetectIsFirstMatch(table, t, 0);
      LanguageLevelCases(table[k], t);
    }
  }
}
