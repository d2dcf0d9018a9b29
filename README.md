# Anime and movie search bot: the message-to-reply pipeline

This project models the decision logic of a Telegram bot (`api/index.py`) that
answers a chat message naming a movie or an anime with Google search results.
The model covers five steps.

1. The message handler drops missing, empty and `/`-command texts. In groups and
   supergroups it also drops texts over 50 characters and texts the intent
   classifier rejects. An accepted group message has its original deleted.
2. The intent classifier is an exact, lower-cased match against a fixed ignore
   list. After it comes an optional Gemini question, and the model fails open.
3. The queries are fixed-suffix concatenations: the web query adds
   `" Hindi Dubbed Telegram Channel site:t.me"`, the image query adds `" anime wallpaper"`.
4. The result normaliser cuts each title to 30 characters and appends `"..."`.
   It cuts each link before its first `?`. The image is the first image item's link.
5. The reply has one URL button per result, then one close button. It is a photo
   when an image link was found, otherwise a text message, with a fixed caption.
   The button-press handler answers `movie` and `anime` with a hint and deletes the
   message on `close`.

The external calls are parameters:
- the Gemini model is `Classifier.Gemini`, either `NoModel` or a function from
  prompt to `Generated(reply)` or `GenerationFailed`;
- each search is a function from query string to a decoded `Search.Response`;
- the Telegram calls a handler makes are returned, in order, as a list of
  `Telegram.Effect` values.

Modules: `Text` (ASCII case mapping, title case, substring search), `Classifier`,
`Search` (queries and normalisation), `Telegram` (chat values, buttons, effects and
the `Keyboard` markup object) and `Bot` (the two handlers and the pipeline lemmas).
`Bot.Msg` builds the keyboard in a loop that adds one button per row to a `Keyboard`
object, as the handler does. It is proved equal to the function `Bot.MsgEffects`,
and the pipeline properties are lemmas about that function.

Behaviour as written, where it differs from the bot's design description:
- there is no spoiler flag, and no separate "no results" caption;
- no boilerplate words are removed from titles, and `"..."` is appended to short titles too;
- links have no path rewriting, only the query string is cut;
- the code does not cap the number of results itself; it asks the search API for 5 (`num`);
- the query is always the fixed concatenation (Gemini is not asked to write it);
- the image suffix is `" anime wallpaper"`.

Other details taken from the code:
- an item missing its `title` or `link` raises `KeyError` inside the comprehension,
  so the whole search yields no results;
- an empty image link counts as no image (`if image:`);
- a `close` press on a message the bot cannot see (`c.message` is `None`) deletes nothing.

## Model

| member | source | states |
|---|---|---|
| Classifier.IsSearchQuery | api/index.py:64-78 | an ignored word (after lower-casing) is never a search, whatever the model; with no model or a failed call the text is a search; otherwise it is one iff "YES" occurs in the upper-cased reply |
| Classifier.ClassifierPrompt | api/index.py:73-75 | the prompt is `Is '`, then the text verbatim, then `' a Movie or Anime name? Reply YES or NO`, and nothing else |
| Classifier.IgnoredInAnyCase | api/index.py:65-67 | every spelling whose lower case is an ignored word is rejected, whatever the model |
| Text.Contains | api/index.py:76 | the left-to-right search answers true iff the substring occurs at some index |
| Text.TitleFromWordStarts | api/index.py:204 | title case upper-cases exactly the letters that begin a word and lower-cases every other letter |
| Text.TitleFromKeepsLetters | api/index.py:204 | title case changes nothing but letter case |
| Text.TitleCaseIdempotent | api/index.py:204 | title-casing twice equals title-casing once |
| Search.BuildQuery | api/index.py:80-81 | the query starts with the text and ends with the channel qualifier, and is exactly as long as both |
| Search.BuildQueryRoundTrip | api/index.py:80-81 | dropping the qualifier from a built query gives back the text |
| Search.BuildQueryInjective | api/index.py:80-81 | different texts give different queries |
| Search.ImageQuery | api/index.py:109 | the image query starts with the text and ends with " anime wallpaper" |
| Search.CutTitle | api/index.py:97 | the title is at most 33 characters and ends in "..."; before the ellipsis is a prefix of the raw title of length min(30, its length) |
| Search.StripQuery | api/index.py:98 | the link has no '?', is a prefix of the raw link, equals it when it has no '?', and otherwise stops right at the first '?' |
| Search.NormaliseItems | api/index.py:96-99 | a result list exists iff every item has both keys; it then has one result per item, in item order |
| Search.GoogleSearch | api/index.py:84-101 | every result is normalised (title at most 33 characters ending in "...", link without '?'); a failed request or a response without items gives no results |
| Search.GetImage | api/index.py:103-118 | the image exists iff the response has a first item with a link, and is that link unchanged |
| Search.SearchKeepsOrder | api/index.py:94-99 | for complete items, the result count equals the item count and result k is item k cut and stripped |
| Search.IncompleteItemEmptiesResults | api/index.py:96-101 | one item missing a key empties the whole result list |
| Telegram.Keyboard.constructor | api/index.py:199 | a new keyboard has no rows |
| Telegram.Keyboard.Add | api/index.py:201-202 | adding a button appends one row holding just that button |
| Bot.ReplyMarkup | api/index.py:199-202 | one row per result with the folder-icon title and link, in order, then exactly one close row; no other button sends callback data |
| Bot.Caption | api/index.py:204 | the caption is the fixed `<blockquote>🔎 <b>Result:</b> ` opening, then the title-cased text, then `</blockquote>`, and nothing else |
| Bot.Msg | api/index.py:183-211 | the calls the handler makes equal `MsgEffects`: nothing for blank or command text or a rejected group text; delete-then-reply for an accepted group text; one reply otherwise |
| Bot.SendResults | api/index.py:195-211 | the reply sent equals the search reply: the keyboard built button by button is the reply markup and the send kind follows the image |
| Bot.Callbacks | api/index.py:170-179 | "movie" and "anime" answer with their hint, "close" deletes exactly the message carrying the button when it is visible and does nothing when it is not, any other data does nothing, and only "close" ever deletes |
| Bot.BlankTextIsSilent | api/index.py:184-185 | missing, empty or "/"-prefixed text makes no call at all |
| Bot.LongGroupTextIsSilent | api/index.py:187-189 | a group text over 50 characters makes no call, whatever the classifier would answer |
| Bot.GroupGreetingIsSilent | api/index.py:187-189 | an ignored word in a group, in any case, makes no call |
| Bot.PrivateChatAlwaysReplies | api/index.py:187-197 | outside groups a non-blank text gets exactly one reply, independent of the classifier and of its length, and never a delete |
| Bot.DeleteOnlyAcceptedGroupText | api/index.py:187-193 | a delete is issued iff a non-blank group text passes the gate, and then it deletes that message before the one reply |
| Bot.ReplyKindFollowsImage | api/index.py:204-211 | the reply is a photo iff a non-empty image link exists, else text, with the same caption and keyboard |
| Bot.NoResultsOnlyClose | api/index.py:199-202 | with no results the keyboard is the close button alone |
| Bot.ReplyButtonsAreClean | api/index.py:96-99 | every URL button of a reply opens a link without '?' and shows the folder icon and at most 33 title characters |
| Bot.NarutoScenario | api/index.py:183-211 | a private "Naruto" with two complete web items and an image gets one photo reply with three keyboard rows |

## Left out

- The Flask routes and webhook decoding (api/index.py:121-133): HTTP transport.
- The `/start` and `/help` handler (api/index.py:136-167): constant banner and keyboard.
- `add_user` and the MongoDB client (api/index.py:37-61): persistence; the message handler does not call it.
- Gemini configuration (api/index.py:29-35): only its outcome is modelled, as `NoModel` or a model function.
- The HTTP requests and JSON decoding in `google_search` and `get_image`: a search is a function from query to decoded response. The API key, engine id, `num` and `searchType` parameters are not modelled. A `title` or `link` value that is not a string is treated as missing.
- Whether a Telegram call succeeds: effects are the calls attempted. A failed delete is swallowed in the code; a failed send is not retried.
- `parse_mode="HTML"`: every send uses it, so it is not a field of `Effect`.
- Text.TitleCase, Text.ToLower, Text.ToUpper: ASCII approximations of Python's Unicode `str.title`, `str.lower` and `str.upper`. Non-ASCII letters count as uncased and are left unchanged.
- Determinism of the pipeline is not stated as a lemma: every member is a function of its inputs, so equal inputs give equal outputs by construction.
- Concurrency between webhook invocations: the handlers keep no state between messages.
