/**
  The intent classifier that decides whether a group-chat message names a
  movie or an anime. The Gemini model is a parameter: either no model was
  configured, or a function from prompt to what its call produced.
 */
module Classifier {
  import opened Text

  /** What one `generate_content` call produced: its reply text, or a failure of any kind. */
  datatype Generation = GenerationFailed | Generated(text: string)

  /** The text-generation model: absent when no key was set or configuring it failed. */
  datatype Gemini = NoModel | Model(generate: string -> Generation)

  /** Greetings and commands that are never searched for, compared after lower-casing. */
  const IgnoreList: seq<string> := ["hi", "hello", "hey", "gm", "gn", "help", "start"]

  const PromptPrefix: string := "Is '"
  const PromptSuffix: string := "' a Movie or Anime name? Reply YES or NO"

  /** The question put to the model about `text`: the text quoted between a fixed opening and question. */
  function ClassifierPrompt(text: string): (p: string)
    ensures StartsWith(p, PromptPrefix) && EndsWith(p, PromptSuffix)
    ensures OccursAt(p, text, |PromptPrefix|)
    ensures |p| == |PromptPrefix| + |text| + |PromptSuffix|
  {
    var p := PromptPrefix + text + PromptSuffix;
    assert p[..|PromptPrefix|] == PromptPrefix;
    assert p[|PromptPrefix|..|PromptPrefix| + |text|] == text;
    assert p[|p| - |PromptSuffix|..] == PromptSuffix;
    p
  }

  /**
    Whether `text` is a search request: never for an ignored word in any letter
    case; always when there is no model or its call fails (fail-open);
    otherwise exactly when the upper-cased reply contains "YES".
   */
  function IsSearchQuery(text: string, gemini: Gemini): (b: bool)
    ensures ToLower(text) in IgnoreList ==> !b
    ensures ToLower(text) !in IgnoreList && gemini.NoModel? ==> b
    ensures ToLower(text) !in IgnoreList && gemini.Model? ==>
      match gemini.generate(ClassifierPrompt(text))
      case GenerationFailed => b
      case Generated(reply) => b <==> exists i: nat :: OccursAt(ToUpper(reply), "YES", i)
  {
    if ToLower(text) in IgnoreList then false
    else match gemini
      case NoModel => true
      case Model(generate) =>
        match generate(ClassifierPrompt(text))
        case GenerationFailed => true
        case Generated(reply) => Contains(ToUpper(reply), "YES")
  }

  /**
    The ignore list holds lower-case words only, so a word is ignored in every
    spelling whose lower case it is ("Hello", "HELLO", ...), whatever the model.
   */
  lemma {:induction false} IgnoredInAnyCase(text: string, word: string, gemini: Gemini)
    requires word in IgnoreList
    requires |text| == |word|
    requires forall i :: 0 <= i < |text| ==> LowerChar(text[i]) == word[i]
    ensures !IsSearchQuery(text, gemini)
  {
    assert ToLower(text) == word;
  }
}
