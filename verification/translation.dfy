/**
  The translation step that follows extraction. No translation service is
  called: the "translation" of a paragraph is its text with a fixed marker
  appended, and everything else about the paragraph is carried over.
 */
module Translation {
  import opened Records

  /** The marker the simulated translation appends. */
  const Suffix: string := "_[zh-CN translated]"

  datatype Option<T> = None | Some(value: T)

  /** The simulated translation of one text. */
  function SimulateTranslation(text: string): (t: string)
    ensures |t| == |text| + |Suffix|
    ensures t[..|text|] == text && t[|text|..] == Suffix
  {
    text + Suffix
  }

  /**
    The text a simulated translation was made from: found exactly when `t`
    is the translation of some text.
   */
  function Untranslate(t: string): (r: Option<string>)
    ensures r.Some? ==> SimulateTranslation(r.value) == t
    ensures r.None? ==> forall s :: SimulateTranslation(s) != t
  {
    if |t| >= |Suffix| && t[|t| - |Suffix|..] == Suffix then Some(t[..|t| - |Suffix|]) else None
  }

  /** Stripping the marker gives back the original text. */
  lemma UntranslateTranslation(text: string)
    ensures Untranslate(SimulateTranslation(text)) == Some(text)
  {
  }

  /** Distinct texts get distinct translations. */
  lemma TranslationInjective(a: string, b: string)
    ensures SimulateTranslation(a) == SimulateTranslation(b) ==> a == b
  {
  }

  /** One paragraph after translation: the text is translated, position and page carried over. */
  function Translate(p: Paragraph): (t: TranslatedParagraph)
    ensures t.originalText == p.originalText && t.position == p.position && t.pageNum == p.pageNum
    ensures Untranslate(t.translatedText) == Some(p.originalText)
  {
    UntranslateTranslation(p.originalText);
    TranslatedParagraph(p.originalText, SimulateTranslation(p.originalText), p.position, p.pageNum)
  }

  /** The paragraph a translated record was made from: everything but the translation. */
  function Forget(t: TranslatedParagraph): Paragraph {
    Paragraph(t.originalText, t.position, t.pageNum)
  }

  /**
    The translation loop over the paragraph list, one record per paragraph in
    the same order, each carrying its paragraph's fields unchanged.
   */
  function TranslateAll(ps: seq<Paragraph>): (ts: seq<TranslatedParagraph>)
    ensures |ts| == |ps|
    ensures forall k :: 0 <= k < |ps| ==> Forget(ts[k]) == ps[k]
    ensures forall k :: 0 <= k < |ps| ==> ts[k].translatedText == ps[k].originalText + Suffix
  {
    if ps == [] then []
    else TranslateAll(ps[..|ps| - 1]) + [Translate(ps[|ps| - 1])]
  }

  /** Translating a concatenation translates each part: the map keeps order. */
  lemma TranslateAllAppend(a: seq<Paragraph>, b: seq<Paragraph>)
    ensures TranslateAll(a + b) == TranslateAll(a) + TranslateAll(b)
  {
  }

  /** The translation loop as written: one record appended per paragraph. */
  method TranslateLoop(ps: seq<Paragraph>) returns (ts: seq<TranslatedParagraph>)
    ensures ts == TranslateAll(ps)
  {
    ts := [];
    var k := 0;
    while k < |ps|
      invariant 0 <= k <= |ps|
      invariant ts == TranslateAll(ps[..k])
    {
      var p := ps[k];
      var originalText := p.originalText;
      var simulated := originalText + "_[zh-CN translated]";
      ts := ts + [TranslatedParagraph(originalText, simulated, p.position, p.pageNum)];
      assert ps[..k + 1][..k] == ps[..k];
      k := k + 1;
    }
    assert ps[..k] == ps;
  }
}
