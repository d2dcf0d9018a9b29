/**
  The bot's handlers for text messages and button presses. A message handler
  run is `Msg`, proved against `MsgEffects`; the properties of the pipeline
  are lemmas about `MsgEffects`.
 */
module Bot {
  import opened Wrappers
  import opened Text
  import opened Classifier
  import opened Search
  import opened Telegram

  /** Group texts longer than this are never treated as searches. */
  const MaxGroupTextLength: nat := 50

  const FolderIcon: string := "\U{1F4C2} "
  const CloseToken: string := "close"
  const CloseButton: Button := CallbackButton("\U{274C} Close", CloseToken)
  const MovieHint: string := "Movie name likho (Stree 2)"
  const AnimeHint: string := "Anime name likho (Naruto)"

  predicate IsGroupChat(kind: ChatKind)
  {
    kind == Group || kind == Supergroup
  }

  /** The button for one result: the folder icon and the title, opening the link. */
  function ResultButton(r: SearchResult): Button
  {
    UrlButton(FolderIcon + r.title, r.link)
  }

  /**
    The reply keyboard: one row per result with its button, in result order,
    then a last row with the close button; no other row sends callback data.
   */
  function ReplyMarkup(results: seq<SearchResult>): (rows: seq<seq<Button>>)
    ensures |rows| == |results| + 1
    ensures forall k :: 0 <= k < |results| ==>
      rows[k] == [UrlButton(FolderIcon + results[k].title, results[k].link)]
    ensures rows[|results|] == [CloseButton]
    ensures forall k, j :: 0 <= k < |rows| && 0 <= j < |rows[k]| && rows[k][j].CallbackButton? ==>
      k == |results| && rows[k][j] == CloseButton
  {
    seq(|results|, k requires 0 <= k < |results| => [ResultButton(results[k])]) + [[CloseButton]]
  }

  const CaptionPrefix: string := "<blockquote>\U{1F50E} <b>Result:</b> "
  const CaptionSuffix: string := "</blockquote>"

  /** The caption of every reply: the message text in title case inside a quote, after the "Result:" label. */
  function Caption(text: string): (c: string)
    ensures StartsWith(c, CaptionPrefix) && EndsWith(c, CaptionSuffix)
    ensures OccursAt(c, TitleCase(text), |CaptionPrefix|)
    ensures |c| == |CaptionPrefix| + |text| + |CaptionSuffix|
  {
    var c := CaptionPrefix + TitleCase(text) + CaptionSuffix;
    assert c[..|CaptionPrefix|] == CaptionPrefix;
    assert c[|CaptionPrefix|..|CaptionPrefix| + |text|] == TitleCase(text);
    assert c[|c| - |CaptionSuffix|..] == CaptionSuffix;
    c
  }

  /** `if image:` in Python: an image is shown only when a non-empty link was found. */
  predicate HasImage(image: Option<string>)
  {
    image.Some? && image.value != []
  }

  /** The one send a search makes: a photo when there is an image, otherwise a text message. */
  function Reply(chatId: int, text: string, results: seq<SearchResult>, image: Option<string>): Effect
  {
    if HasImage(image) then SendPhoto(chatId, image.value, Caption(text), ReplyMarkup(results))
    else SendText(chatId, Caption(text), ReplyMarkup(results))
  }

  /** The reply for `text`, with the web engine asked for its query and the image engine for its own. */
  function SearchReply(chatId: int, text: string, web: Engine, images: Engine): Effect
  {
    Reply(chatId, text, GoogleSearch(web(BuildQuery(text))), GetImage(images(ImageQuery(text))))
  }

  /** Texts the handler ignores in every chat: missing, empty, or a command. */
  predicate Blank(text: Option<string>)
  {
    text.None? || text.value == [] || StartsWith(text.value, "/")
  }

  /** Whether a group message passes the gate: short enough, then judged a search by the classifier. */
  predicate GroupAccepts(text: string, gemini: Gemini)
  {
    |text| <= MaxGroupTextLength && IsSearchQuery(text, gemini)
  }

  /** The calls one run of the message handler makes, in order. */
  function MsgEffects(m: Message, gemini: Gemini, web: Engine, images: Engine): seq<Effect>
  {
    if Blank(m.text) then []
    else if IsGroupChat(m.chat.kind) then
      if GroupAccepts(m.text.value, gemini) then
        [DeleteMessage(m.chat.id, m.messageId), SearchReply(m.chat.id, m.text.value, web, images)]
      else []
    else [SearchReply(m.chat.id, m.text.value, web, images)]
  }

  /** The message handler: gate, delete the original in groups, then search and send the reply. */
  method Msg(m: Message, gemini: Gemini, web: Engine, images: Engine) returns (effects: seq<Effect>)
    ensures effects == MsgEffects(m, gemini, web, images)
  {
    effects := [];
    if Blank(m.text) {
      return;
    }
    var text := m.text.value;
    if IsGroupChat(m.chat.kind) {
      if |text| > MaxGroupTextLength || !IsSearchQuery(text, gemini) {
        return;
      }
      effects := effects + [DeleteMessage(m.chat.id, m.messageId)];
    }
    var reply := SendResults(m.chat.id, text, web, images);
    effects := effects + [reply];
  }

  /** The search and send part of the handler: query, results, image, keyboard built button by button, caption. */
  method SendResults(chatId: int, text: string, web: Engine, images: Engine) returns (reply: Effect)
    ensures reply == SearchReply(chatId, text, web, images)
  {
    var query := BuildQuery(text);
    var results := GoogleSearch(web(query));
    var image := GetImage(images(ImageQuery(text)));

    var kb := new Keyboard();
    for i := 0 to |results|
      invariant |kb.rows| == i
      invariant forall k :: 0 <= k < i ==> kb.rows[k] == [ResultButton(results[k])]
    {
      kb.Add(UrlButton(FolderIcon + results[i].title, results[i].link));
    }
    kb.Add(CloseButton);
    assert kb.rows == ReplyMarkup(results);

    var caption := Caption(text);
    if image.Some? && image.value != [] {
      reply := SendPhoto(chatId, image.value, caption, kb.rows);
    } else {
      reply := SendText(chatId, caption, kb.rows);
    }
  }

  /** The button-press handler: hints for "movie" and "anime", and "close" deletes the pressed message. */
  method Callbacks(c: CallbackQuery) returns (effects: seq<Effect>)
    ensures c.data == Some("movie") ==> effects == [AnswerCallback(c.id, MovieHint)]
    ensures c.data == Some("anime") ==> effects == [AnswerCallback(c.id, AnimeHint)]
    ensures c.data == Some(CloseToken) && c.message.Some? ==>
      effects == [DeleteMessage(c.message.value.chatId, c.message.value.messageId)]
    ensures c.data == Some(CloseToken) && c.message.None? ==> effects == []
    ensures c.data !in {Some("movie"), Some("anime"), Some(CloseToken)} ==> effects == []
    ensures forall e | e in effects :: e.DeleteMessage? ==>
      c.data == Some(CloseToken) && c.message == Some(MessageRef(e.chatId, e.messageId))
  {
    effects := [];
    if c.data == Some("movie") {
      effects := [AnswerCallback(c.id, MovieHint)];
    } else if c.data == Some("anime") {
      effects := [AnswerCallback(c.id, AnimeHint)];
    } else if c.data == Some(CloseToken) {
      match c.message
      case Some(ref) => effects := [DeleteMessage(ref.chatId, ref.messageId)];
      case None =>
    }
  }

  /** Missing, empty and command texts produce no call at all, in any chat and whatever the boundaries answer. */
  lemma BlankTextIsSilent(m: Message, gemini: Gemini, web: Engine, images: Engine)
    requires m.text.None? || m.text.value == [] || m.text.value[0] == '/'
    ensures MsgEffects(m, gemini, web, images) == []
  {
    if m.text.Some? && m.text.value != [] {
      assert m.text.value[..1] == "/";
    }
  }

  /**
    A group text over 50 characters is dropped before the classifier is asked:
    nothing is sent or deleted, whatever the model would have said.
   */
  lemma LongGroupTextIsSilent(m: Message, gemini: Gemini, web: Engine, images: Engine)
    requires IsGroupChat(m.chat.kind) && m.text.Some? && |m.text.value| > MaxGroupTextLength
    ensures MsgEffects(m, gemini, web, images) == []
  {
  }

  /** A greeting or help word in a group chat, in any letter case, is never answered. */
  lemma GroupGreetingIsSilent(m: Message, gemini: Gemini, web: Engine, images: Engine)
    requires IsGroupChat(m.chat.kind) && m.text.Some? && ToLower(m.text.value) in IgnoreList
    ensures MsgEffects(m, gemini, web, images) == []
  {
  }

  /**
    Outside groups every non-blank text is searched, whatever its length and
    without the classifier: exactly one send to the same chat and no delete.
   */
  lemma {:induction false} PrivateChatAlwaysReplies(m: Message, g1: Gemini, g2: Gemini, web: Engine, images: Engine)
    requires !IsGroupChat(m.chat.kind) && !Blank(m.text)
    ensures MsgEffects(m, g1, web, images) == MsgEffects(m, g2, web, images)
    ensures MsgEffects(m, g1, web, images) == [SearchReply(m.chat.id, m.text.value, web, images)]
    ensures forall e | e in MsgEffects(m, g1, web, images) :: !e.DeleteMessage?
  {
    var e := SearchReply(m.chat.id, m.text.value, web, images);
    assert !e.DeleteMessage?;
  }

  /**
    The original message is deleted exactly when a non-blank group text passes
    the gate; the delete names that message and comes before the one reply.
   */
  lemma {:induction false} DeleteOnlyAcceptedGroupText(m: Message, gemini: Gemini, web: Engine, images: Engine)
    ensures (exists e :: e in MsgEffects(m, gemini, web, images) && e.DeleteMessage?) <==>
      IsGroupChat(m.chat.kind) && !Blank(m.text) && GroupAccepts(m.text.value, gemini)
    ensures IsGroupChat(m.chat.kind) && !Blank(m.text) && GroupAccepts(m.text.value, gemini) ==>
      MsgEffects(m, gemini, web, images) ==
        [DeleteMessage(m.chat.id, m.messageId), SearchReply(m.chat.id, m.text.value, web, images)]
  {
    var effects := MsgEffects(m, gemini, web, images);
    if IsGroupChat(m.chat.kind) && !Blank(m.text) && GroupAccepts(m.text.value, gemini) {
      assert effects[0] in effects;
    } else if !Blank(m.text) && !IsGroupChat(m.chat.kind) {
      PrivateChatAlwaysReplies(m, gemini, gemini, web, images);
    }
  }

  /**
    The reply is a photo exactly when a non-empty image link was found and a
    text message otherwise, with the same caption and keyboard either way.
   */
  lemma ReplyKindFollowsImage(chatId: int, text: string, results: seq<SearchResult>, image: Option<string>)
    ensures Reply(chatId, text, results, image).SendPhoto? <==> HasImage(image)
    ensures Reply(chatId, text, results, image).SendText? <==> !HasImage(image)
    ensures HasImage(image) ==>
      Reply(chatId, text, results, image) == SendPhoto(chatId, image.value, Caption(text), ReplyMarkup(results))
    ensures !HasImage(image) ==>
      Reply(chatId, text, results, image) == SendText(chatId, Caption(text), ReplyMarkup(results))
  {
  }

  /** With no results the keyboard is the close button alone. */
  lemma NoResultsOnlyClose(results: seq<SearchResult>)
    requires results == []
    ensures ReplyMarkup(results) == [[CloseButton]]
  {
  }

  /**
    Every reply to a search carries clean result buttons: each opens a link
    without '?', and its text is the folder icon and at most 33 characters of title.
   */
  lemma {:induction false} ReplyButtonsAreClean(chatId: int, text: string, web: Engine, images: Engine)
    ensures var rows := SearchReply(chatId, text, web, images).markup;
      forall k, j :: 0 <= k < |rows| && 0 <= j < |rows[k]| && rows[k][j].UrlButton? ==>
        '?' !in rows[k][j].url && StartsWith(rows[k][j].text, FolderIcon) &&
        |rows[k][j].text| <= |FolderIcon| + TitleLimit + |Ellipsis|
  {
    var results: seq<SearchResult> := GoogleSearch(web(BuildQuery(text)));
    var rows: seq<seq<Button>> := ReplyMarkup(results);
    assert SearchReply(chatId, text, web, images).markup == rows;
    forall k: int, j: int | 0 <= k < |rows| && 0 <= j < |rows[k]| && rows[k][j].UrlButton?
      ensures '?' !in rows[k][j].url && StartsWith(rows[k][j].text, FolderIcon)
      ensures |rows[k][j].text| <= |FolderIcon| + TitleLimit + |Ellipsis|
    {
      assert k < |results|;
      assert IsNormalised(results[k]);
      assert rows[k][j] == UrlButton(FolderIcon + results[k].title, results[k].link);
    }
  }

  /**
    A private "Naruto" whose web search finds two complete items and whose image
    search finds a picture: one photo reply with two result rows and the close row.
   */
  lemma NarutoScenario(m: Message, gemini: Gemini, web: Engine, images: Engine, a: RawItem, b: RawItem, picture: string)
    requires m.chat.kind == Private && m.text == Some("Naruto")
    requires web(BuildQuery("Naruto")) == Items([a, b]) && WellFormed(a) && WellFormed(b)
    requires images(ImageQuery("Naruto")) == Items([RawItem(None, Some(picture))]) && picture != []
    ensures |MsgEffects(m, gemini, web, images)| == 1
    ensures MsgEffects(m, gemini, web, images)[0].SendPhoto?
    ensures MsgEffects(m, gemini, web, images)[0].photo == picture
    ensures |MsgEffects(m, gemini, web, images)[0].markup| == 3
  {
    assert !StartsWith("Naruto", "/");
    SearchKeepsOrder(web(BuildQuery("Naruto")));
  }
}
