/**
 * Building a music-generation prompt from a conversation analysis and
 * explicit settings: explicit values win, the analysis fills in the
 * missing (or empty) ones, and the prompt lists mood, up to three themes,
 * style and the instrumental flag in that order.
 */
module PromptGenerator {
  import opened Wrappers
  import opened Text

  /** The analysis record. */
  datatype ConversationAnalysis = ConversationAnalysis(
    mood: string,
    themes: seq<string>,
    emotions: seq<string>,
    suggestedGenres: seq<string>,
    keyPhrases: seq<string>,
    energyLevel: string,
    summary: string)

  /** The prompt record; `style` and `title` default to none, `instrumental` to false. */
  datatype SunoPrompt = SunoPrompt(prompt: string, style: Option<string> := None, title: Option<string> := None,
                                   instrumental: bool := false)

  /** `analyze_conversation`: the fixed placeholder analysis, whatever the conversation says. */
  function AnalyzeConversation(conversation: string): (a: ConversationAnalysis)
    ensures a.mood == "neutral" && a.themes == ["conversation"] && a.emotions == ["calm"]
    ensures a.suggestedGenres == ["ambient"] && a.keyPhrases == [] && a.energyLevel == "medium"
  {
    ConversationAnalysis("neutral", ["conversation"], ["calm"], ["ambient"], [], "medium",
                         "A conversation between client and service provider.")
  }

  /** The analysis does not depend on the conversation. */
  lemma AnalyzeConversationConstant(c1: string, c2: string)
    ensures AnalyzeConversation(c1) == AnalyzeConversation(c2)
  {
  }

  // ---------------------------------------------------------------------
  // Resolving the inputs
  // ---------------------------------------------------------------------

  /** A string argument is truthy when given and non-empty. */
  predicate Given(s: Option<string>) {
    s.Some? && s.value != ""
  }

  /** A list argument is truthy when given and non-empty. */
  predicate GivenList(s: Option<seq<string>>) {
    s.Some? && s.value != []
  }

  /** The settings after the analysis has filled in. */
  datatype Settings = Settings(mood: Option<string>, themes: Option<seq<string>>, style: Option<string>)

  /** `if analysis: mood = mood or analysis.mood; ...` */
  function Resolve(analysis: Option<ConversationAnalysis>, mood: Option<string>, themes: Option<seq<string>>,
                   style: Option<string>): Settings
  {
    match analysis
    case None => Settings(mood, themes, style)
    case Some(a) =>
      Settings(if Given(mood) then mood else Some(a.mood),
               if GivenList(themes) then themes else Some(a.themes),
               if Given(style) then style
               else if a.suggestedGenres != [] then Some(a.suggestedGenres[0]) else None)
  }

  /**
   * Explicit truthy settings come through unchanged; with an analysis the
   * falsy ones come from it (the style from the first suggested genre, or
   * none); without one, everything comes through unchanged.
   */
  lemma ResolvePrecedence(analysis: Option<ConversationAnalysis>, mood: Option<string>, themes: Option<seq<string>>,
                          style: Option<string>)
    ensures var r := Resolve(analysis, mood, themes, style);
      && (Given(mood) ==> r.mood == mood)
      && (GivenList(themes) ==> r.themes == themes)
      && (Given(style) ==> r.style == style)
      && (analysis.None? ==> r == Settings(mood, themes, style))
      && (analysis.Some? && !Given(mood) ==> r.mood == Some(analysis.value.mood))
      && (analysis.Some? && !GivenList(themes) ==> r.themes == Some(analysis.value.themes))
      && (analysis.Some? && !Given(style) && analysis.value.suggestedGenres != [] ==>
            r.style == Some(analysis.value.suggestedGenres[0]))
      && (analysis.Some? && !Given(style) && analysis.value.suggestedGenres == [] ==> r.style == None)
  {
  }

  // ---------------------------------------------------------------------
  // The prompt
  // ---------------------------------------------------------------------

  /** `themes[:3]` */
  function FirstThree(themes: seq<string>): (r: seq<string>)
    ensures |r| <= 3 && |r| <= |themes| && r == themes[..|r|]
    ensures |themes| <= 3 ==> r == themes
    ensures |themes| >= 3 ==> r == themes[..3]
  {
    if |themes| <= 3 then themes else themes[..3]
  }

  /** The prompt parts, in their fixed order. */
  function Parts(s: Settings, instrumental: bool): seq<string> {
    (if Given(s.mood) then [s.mood.value + " mood"] else [])
    + (if GivenList(s.themes) then [Join(", ", FirstThree(s.themes.value))] else [])
    + (if Given(s.style) then [s.style.value + " style"] else [])
    + (if instrumental then ["instrumental"] else [])
  }

  const DefaultPrompt := "ambient background music"

  /** `generate_prompt`, as written: the parts joined by ", ", or the default when there are none. */
  function GeneratePrompt(analysis: Option<ConversationAnalysis> := None, mood: Option<string> := None,
                          themes: Option<seq<string>> := None, style: Option<string> := None,
                          instrumental: bool := false): SunoPrompt
  {
    var s := Resolve(analysis, mood, themes, style);
    var parts := Parts(s, instrumental);
    SunoPrompt(if parts != [] then Join(", ", parts) else DefaultPrompt, s.style, None, instrumental)
  }

  /** The returned style and flag are the resolved ones; no title is set. */
  lemma PromptFields(analysis: Option<ConversationAnalysis>, mood: Option<string>, themes: Option<seq<string>>,
                     style: Option<string>, instrumental: bool)
    ensures var p := GeneratePrompt(analysis, mood, themes, style, instrumental);
      p.style == Resolve(analysis, mood, themes, style).style && p.instrumental == instrumental && p.title == None
  {
  }

  /** Nothing to say: the prompt is the default text. */
  lemma DefaultWhenNoParts(analysis: Option<ConversationAnalysis>, mood: Option<string>, themes: Option<seq<string>>,
                           style: Option<string>)
    requires var s := Resolve(analysis, mood, themes, style); !Given(s.mood) && !GivenList(s.themes) && !Given(s.style)
    ensures GeneratePrompt(analysis, mood, themes, style, false).prompt == DefaultPrompt
  {
  }

  /** The mood part leads, and the mood appears verbatim. */
  lemma MoodFirst(analysis: Option<ConversationAnalysis>, mood: Option<string>, themes: Option<seq<string>>,
                  style: Option<string>, instrumental: bool)
    requires Given(Resolve(analysis, mood, themes, style).mood)
    ensures var p := GeneratePrompt(analysis, mood, themes, style, instrumental).prompt;
      var m := Resolve(analysis, mood, themes, style).mood.value;
      StartsWith(p, m + " mood") && Contains(p, m)
  {
    var s := Resolve(analysis, mood, themes, style);
    var parts := Parts(s, instrumental);
    var m := s.mood.value;
    assert parts[0] == m + " mood";
    JoinEnds(", ", parts);
    var p := Join(", ", parts);
    assert p[..|m|] == (m + " mood")[..|m|] == m;
    StartsWithContains(p, m);
  }

  /** The instrumental flag comes last. */
  lemma InstrumentalLast(analysis: Option<ConversationAnalysis>, mood: Option<string>, themes: Option<seq<string>>,
                         style: Option<string>)
    ensures EndsWith(GeneratePrompt(analysis, mood, themes, style, true).prompt, "instrumental")
  {
    var parts := Parts(Resolve(analysis, mood, themes, style), true);
    JoinEnds(", ", parts);
  }

  /** Each of the first three themes appears verbatim. */
  lemma ThemesShown(analysis: Option<ConversationAnalysis>, mood: Option<string>, themes: Option<seq<string>>,
                    style: Option<string>, instrumental: bool, i: nat)
    requires var s := Resolve(analysis, mood, themes, style); GivenList(s.themes) && i < |s.themes.value| && i < 3
    ensures Contains(GeneratePrompt(analysis, mood, themes, style, instrumental).prompt,
                     Resolve(analysis, mood, themes, style).themes.value[i])
  {
    var s := Resolve(analysis, mood, themes, style);
    var parts := Parts(s, instrumental);
    var first := FirstThree(s.themes.value);
    var k := if Given(s.mood) then 1 else 0;
    assert parts[k] == Join(", ", first);
    assert first[i] == s.themes.value[i];
    JoinContains(", ", first, i);
    JoinContains(", ", parts, k);
    ContainsTrans(Join(", ", parts), Join(", ", first), first[i]);
  }

  /** The style appears as "<style> style". */
  lemma StyleShown(analysis: Option<ConversationAnalysis>, mood: Option<string>, themes: Option<seq<string>>,
                   style: Option<string>, instrumental: bool)
    requires Given(Resolve(analysis, mood, themes, style).style)
    ensures Contains(GeneratePrompt(analysis, mood, themes, style, instrumental).prompt,
                     Resolve(analysis, mood, themes, style).style.value + " style")
  {
    var s := Resolve(analysis, mood, themes, style);
    var parts := Parts(s, instrumental);
    var k := (if Given(s.mood) then 1 else 0) + (if GivenList(s.themes) then 1 else 0);
    assert parts[k] == s.style.value + " style";
    JoinContains(", ", parts, k);
  }

  /**
   * Mood, themes and style all set, no flag: the prompt is "<mood> mood",
   * the first three themes and "<style> style", joined by ", ".
   */
  lemma FullPrompt(analysis: Option<ConversationAnalysis>, mood: Option<string>, themes: Option<seq<string>>,
                   style: Option<string>)
    requires var s := Resolve(analysis, mood, themes, style); Given(s.mood) && GivenList(s.themes) && Given(s.style)
    ensures var s := Resolve(analysis, mood, themes, style);
      GeneratePrompt(analysis, mood, themes, style, false).prompt
        == s.mood.value + " mood" + ", " + Join(", ", FirstThree(s.themes.value)) + ", " + s.style.value + " style"
  {
    var s := Resolve(analysis, mood, themes, style);
    var a, b, c := s.mood.value + " mood", Join(", ", FirstThree(s.themes.value)), s.style.value + " style";
    assert Parts(s, false) == [a, b, c];
    JoinThree(", ", a, b, c);
  }

  /** The same with the flag set: ", instrumental" follows the style. */
  lemma FullInstrumentalPrompt(analysis: Option<ConversationAnalysis>, mood: Option<string>, themes: Option<seq<string>>,
                               style: Option<string>)
    requires var s := Resolve(analysis, mood, themes, style); Given(s.mood) && GivenList(s.themes) && Given(s.style)
    ensures var s := Resolve(analysis, mood, themes, style);
      GeneratePrompt(analysis, mood, themes, style, true).prompt
        == s.mood.value + " mood" + ", " + Join(", ", FirstThree(s.themes.value)) + ", " + s.style.value + " style"
           + ", " + "instrumental"
  {
    var s := Resolve(analysis, mood, themes, style);
    var a, b, c := s.mood.value + " mood", Join(", ", FirstThree(s.themes.value)), s.style.value + " style";
    assert Parts(s, true) == [a, b, c, "instrumental"];
    JoinFour(", ", a, b, c, "instrumental");
  }

  /** Themes after the third do not change the prompt. */
  lemma ExtraThemesIgnored(analysis: Option<ConversationAnalysis>, mood: Option<string>, themes: seq<string>,
                           extra: seq<string>, style: Option<string>, instrumental: bool)
    requires |themes| >= 3
    ensures GeneratePrompt(analysis, mood, Some(themes + extra), style, instrumental)
         == GeneratePrompt(analysis, mood, Some(themes), style, instrumental)
  {
    assert (themes + extra)[..3] == themes[..3];
  }

  /** The joined themes are non-empty when the first theme is, or when there are two or more. */
  lemma ThemesPartNonEmpty(themes: seq<string>)
    requires themes != [] && (themes[0] != "" || |themes| >= 2)
    ensures Join(", ", FirstThree(themes)) != ""
  {
    var first := FirstThree(themes);
    assert first[0] == themes[0];
    if |first| >= 2 {
      assert Join(", ", first) == first[0] + ", " + Join(", ", first[1..]);
    }
  }

  /** Under those conditions the leading part, if any, is non-empty or followed by another. */
  lemma LeadingPartNonEmpty(s: Settings, instrumental: bool)
    requires Given(s.mood) || Given(s.style) || instrumental || !GivenList(s.themes)
      || s.themes.value[0] != "" || |s.themes.value| >= 2
    ensures Parts(s, instrumental) != [] ==> Parts(s, instrumental)[0] != "" || |Parts(s, instrumental)| >= 2
  {
    var parts := Parts(s, instrumental);
    if Given(s.mood) {
      assert parts[0] == s.mood.value + " mood";
    } else if GivenList(s.themes) {
      if s.themes.value[0] != "" || |s.themes.value| >= 2 {
        ThemesPartNonEmpty(s.themes.value);
        assert parts[0] == Join(", ", FirstThree(s.themes.value));
      }
    } else if Given(s.style) {
      assert parts[0] == s.style.value + " style";
    } else if instrumental {
      assert parts[0] == "instrumental";
    }
  }

  /**
   * The prompt is never empty when the mood, the style or the flag is set,
   * or when a first theme is non-empty, or when there are two themes or more.
   */
  lemma PromptNonEmpty(analysis: Option<ConversationAnalysis>, mood: Option<string>, themes: Option<seq<string>>,
                       style: Option<string>, instrumental: bool)
    requires var s := Resolve(analysis, mood, themes, style);
      Given(s.mood) || Given(s.style) || instrumental || !GivenList(s.themes)
      || s.themes.value[0] != "" || |s.themes.value| >= 2
    ensures GeneratePrompt(analysis, mood, themes, style, instrumental).prompt != ""
  {
    var parts := Parts(Resolve(analysis, mood, themes, style), instrumental);
    LeadingPartNonEmpty(Resolve(analysis, mood, themes, style), instrumental);
    if parts != [] {
      JoinEnds(", ", parts);
      if |parts| >= 2 {
        assert Join(", ", parts) == parts[0] + ", " + Join(", ", parts[1..]);
      }
    }
  }

  /**
   * As written, a single empty theme and nothing else makes the one part
   * `""`, so the prompt is empty and the default is not used.
   */
  lemma BlankThemePrompt()
    ensures GeneratePrompt(themes := Some([""])).prompt == ""
  {
    assert Parts(Settings(None, Some([""]), None), false) == [""];
  }

  /** The evident intent: fall back to the default whenever the joined parts are empty. */
  function GeneratePromptNonEmpty(analysis: Option<ConversationAnalysis> := None, mood: Option<string> := None,
                                  themes: Option<seq<string>> := None, style: Option<string> := None,
                                  instrumental: bool := false): (p: SunoPrompt)
    ensures p.prompt != ""
    ensures GeneratePrompt(analysis, mood, themes, style, instrumental).prompt != "" ==>
      p == GeneratePrompt(analysis, mood, themes, style, instrumental)
  {
    var written := GeneratePrompt(analysis, mood, themes, style, instrumental);
    if written.prompt != "" then written else written.(prompt := DefaultPrompt)
  }

  /** Helper: containment is transitive. */
  lemma ContainsTrans(a: string, b: string, c: string)
    requires Contains(a, b) && Contains(b, c)
    ensures Contains(a, c)
  {
    var i :| 0 <= i <= |a| - |b| && OccursAt(a, b, i);
    var j :| 0 <= j <= |b| - |c| && OccursAt(b, c, j);
    forall k | 0 <= k < |c| ensures a[i + j + k] == c[k] {
      assert c[k] == b[j..j + |c|][k] == b[j + k];
      assert b[j + k] == a[i..i + |b|][j + k] == a[i + j + k];
    }
    assert a[i + j..i + j + |c|] == c;
    assert OccursAt(a, c, i + j);
  }

  // ---------------------------------------------------------------------
  // The cases of the package's prompt tests
  // ---------------------------------------------------------------------

  lemma MoodExample()
    ensures GeneratePrompt(mood := Some("melancholic")).prompt == "melancholic mood"
  {
    assert "melancholic" + " mood" == "melancholic mood";
    assert Given(Some("melancholic"));
  }

  lemma ThemesExample()
    ensures GeneratePrompt(themes := Some(["love", "loss", "hope"])).prompt == "love" + ", " + "loss" + ", " + "hope"
    ensures StartsWith(GeneratePrompt(themes := Some(["love", "loss", "hope"])).prompt, "love")
  {
    var joined := "love" + ", " + "loss" + ", " + "hope";
    JoinThree(", ", "love", "loss", "hope");
    assert Parts(Settings(None, Some(["love", "loss", "hope"]), None), false) == [joined];
    assert joined[..4] == "love";
  }

  lemma StyleExample()
    ensures GeneratePrompt(style := Some("jazz")) == SunoPrompt("jazz style", Some("jazz"))
  {
    assert "jazz" + " style" == "jazz style";
    assert Given(Some("jazz"));
  }

  lemma InstrumentalExample()
    ensures GeneratePrompt(mood := Some("calm"), instrumental := true).prompt == "calm mood, instrumental"
    ensures GeneratePrompt(mood := Some("calm"), instrumental := true).instrumental
  {
    assert "calm" + " mood" == "calm mood";
    assert Given(Some("calm"));
    assert Parts(Settings(Some("calm"), None, None), true) == ["calm mood", "instrumental"];
    JoinTwo(", ", "calm mood", "instrumental");
  }

  const Hopeful := ConversationAnalysis("hopeful", ["new beginnings", "growth"], ["optimism", "excitement"],
                                       ["indie", "folk"], ["fresh start"], "medium", "A conversation about starting over.")

  /** A full analysis: its mood, both themes and its first genre as the style. */
  lemma AnalysisExample()
    ensures GeneratePrompt(Some(Hopeful)).prompt
         == "hopeful mood" + ", " + ("new beginnings" + ", " + "growth") + ", " + "indie style"
    ensures GeneratePrompt(Some(Hopeful)).style == Some("indie")
  {
    assert Resolve(Some(Hopeful), None, None, None) == Settings(Some("hopeful"), Some(["new beginnings", "growth"]), Some("indie"));
    AnalysisParts();
    JoinThree(", ", "hopeful mood", "new beginnings" + ", " + "growth", "indie style");
  }

  lemma AnalysisParts()
    ensures Parts(Settings(Some("hopeful"), Some(["new beginnings", "growth"]), Some("indie")), false)
         == ["hopeful mood", "new beginnings" + ", " + "growth", "indie style"]
  {
    assert "hopeful" + " mood" == "hopeful mood";
    assert "indie" + " style" == "indie style";
    assert Given(Some("hopeful")) && Given(Some("indie"));
    JoinTwo(", ", "new beginnings", "growth");
  }

  lemma EmptyExample()
    ensures GeneratePrompt() == SunoPrompt(DefaultPrompt)
  {
  }

  /** The placeholder analysis on its own. */
  lemma PlaceholderExample(conversation: string)
    ensures GeneratePrompt(Some(AnalyzeConversation(conversation))).prompt
         == "neutral mood" + ", " + "conversation" + ", " + "ambient style"
    ensures GeneratePrompt(Some(AnalyzeConversation(conversation))).style == Some("ambient")
  {
    var s := Settings(Some("neutral"), Some(["conversation"]), Some("ambient"));
    assert Resolve(Some(AnalyzeConversation(conversation)), None, None, None) == s;
    PlaceholderParts();
    JoinThree(", ", "neutral mood", "conversation", "ambient style");
  }

  lemma PlaceholderParts()
    ensures Parts(Settings(Some("neutral"), Some(["conversation"]), Some("ambient")), false)
         == ["neutral mood", "conversation", "ambient style"]
  {
    assert "neutral" + " mood" == "neutral mood";
    assert "ambient" + " style" == "ambient style";
    assert Given(Some("neutral")) && Given(Some("ambient"));
    assert Join(", ", FirstThree(["conversation"])) == "conversation";
  }
}
