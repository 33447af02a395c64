# RestrictedContentDL `/batch`: a verified model

RestrictedContentDL is a Telegram bot. It copies posts from channels the bot
cannot forward from: a user client fetches each post and re-sends it. This
project models two parts of `main.py`.

- `parse_link_or_range` turns the text after `/batch` into post links. It
  strips the text, splits it into lines, strips each line and skips blank lines.
  It then looks for a range link `https://t.me/<name>/<start>-<end>` and expands
  it into one link per id from start to end.
- `batch_download_media` is the `/batch` handler. It has a usage guard and
  collects the links of all command arguments. Then it handles each link inside
  a `try`. A post can be an album, a single media item, a text, or nothing.
  Each `except` clause sends its own reply.

The project has five modules:

- `PyText` (`py_text.dfy`) models the Python string built-ins the parser
  calls: `str.strip`, `str.splitlines`, `int()` on digit strings, and decimal
  rendering.
- `LinkPattern` (`link_pattern.dfy`) is a hand-written recogniser for the
  regular expression `(https://t\.me/[^\s/]+/)(\d+)-(\d+)` and its private
  form `https://t\.me/c/...`. It models `re.search` as the match at the
  leftmost position where the pattern matches.
- `LinkParser` (`link_parser.dfy`) holds `parse_link_or_range`. The method
  `ParseLinkOrRange` is proved equal to the function `Parse`, and the
  properties are proved about `Parse`.
- `ParseExamples` (`examples_parse.dfy`) works three inputs through the
  parser.
- `BatchHandler` (`batch_handler.dfy`) holds the `/batch` handler. Every call
  into the Telegram client, the helpers and the file system becomes an
  outcome supplied by a `LinkEnv` value, which either returns a value or
  raises. What the handler does is recorded as a sequence of events.

As written, main.py:54 calls `re.search` with the pattern and no string to
search, so the call raises `TypeError`. A `Variant` parameter selects the
reading:

- `AsWritten` models that code. Any non-blank line without a public range
  link raises, so the whole `/batch` command ends with the exception before
  any link is handled.
- `Corrected` applies the second search to the line. When neither search
  matches, it keeps the line as a single link, as the comment at main.py:63
  says.

A private `/c/` range does not fall through to single-link handling either:
the public pattern does not match it, so it reaches the one-argument
`re.search` on main.py:54 and raises `TypeError`.

## Model

| member | source | states |
|---|---|---|
| PyText.Strip | main.py:44-47 | the result starts and ends with non-whitespace, is empty exactly when the text is blank, and equals a text that already starts and ends with non-whitespace |
| PyText.StripTrims | main.py:44-47 | the result is the part of the text between a whitespace-only prefix and a whitespace-only suffix; with the ends `Strip` promises, this fixes its value |
| PyText.StrippedPart | main.py:44-47 | stripping keeps only characters of the text and is idempotent |
| PyText.StripAround | main.py:47 | stripping a text that starts and ends with non-whitespace, surrounded by any whitespace, gives back exactly that text |
| PyText.SplitLines | main.py:44 | no line of `splitlines` holds a line boundary |
| PyText.SplitLinesJoinLines | main.py:44 | `splitlines` returns exactly the lines joined by "\n", provided none holds a line boundary and the last is not empty |
| PyText.SplitLinesJoinWith | main.py:44 | `splitlines` returns exactly the lines joined by any mix of "\r\n" and single boundary characters (\n \r \v \f \x1c-\x1e), provided no line holds a boundary, the last is not empty and a lone "\r" is not followed by an empty line |
| PyText.Value | main.py:58-59 | `int()` of a run of k digits is below 10 to the k |
| PyText.Decimal | main.py:61 | `str(i)` is a non-empty run of digits with no leading zero |
| PyText.ValueDecimal | main.py:58-61 | `int(str(i)) == i`: an id written into a link reads back as itself |
| PyText.DecimalInjective | main.py:61 | distinct ids are rendered differently |
| PyText.ValueLeadingZeros | main.py:58-59 | `int()` ignores leading zeros |
| LinkPattern.MatchAt | main.py:52 | a match at `p` starts at `p`, has non-empty name and id groups, and fits inside the text |
| LinkPattern.Search | main.py:52 | a match found by `re.search` has non-empty name and id groups and fits inside the text |
| LinkPattern.SpanEndRun | main.py:52 | a greedy `+` run is made of class characters and stops in front of a character outside the class |
| LinkPattern.MatchAtSound | main.py:52 | a match at `p` reads the head, a name without whitespace or "/", "/", digits, "-", digits; group(1) is head + name + "/"; the last digit run is not followed by a digit |
| LinkPattern.MatchAtComplete | main.py:52 | wherever the pattern's text occurs, the matcher finds it there with the same name and first id, and the last id is the greedy extension of the given one |
| LinkPattern.FirstFromLeast | main.py:52 | the scan returns the least position where the pattern matches, and None exactly when it matches nowhere in range |
| LinkPattern.SearchLeftmost | main.py:52 | `re.search` returns the match at the leftmost matching position, and None exactly when no position matches |
| LinkPattern.SearchSound | main.py:52 | a found match has the pattern's shape, so both id groups are digit strings that `int()` can read |
| LinkPattern.NoDashNoMatch | main.py:52 | a text without "-" holds no range link |
| LinkPattern.FirstMatch | main.py:52 | when the pattern matches at `p` and at no earlier position, the search returns the match at `p` |
| LinkPattern.FirstCandidate | main.py:52 | when no character before `p` can begin the head and the pattern matches at `p`, the search returns that match |
| LinkPattern.OnlyCandidateAtStart | main.py:52 | when only position 0 can begin the head, the search is decided at position 0 |
| LinkParser.RangeLinks | main.py:60-61 | `range(start, end + 1)` gives `end - start + 1` links (none when start > end), the k-th being base + `str(start + k)` |
| LinkParser.AppendRange | main.py:60-61 | the inner loop appends exactly the links of the range to the list |
| LinkParser.ParseLine | main.py:47-64 | a blank line gives no links; a line raises exactly when the code is taken as written, the line is not blank and the public search finds nothing |
| LinkParser.ParseLines | main.py:46-64 | the loop over no lines gives no links, and over one line gives exactly that line's outcome; ParseLinesAppend, ConcatFailIff and BlankLineIgnored state the rest |
| LinkParser.Parse | main.py:38-66 | a blank text gives no links, and the corrected reading never raises |
| LinkParser.ParseLinkOrRange | main.py:38-66 | the statement-by-statement method returns exactly `Parse(text, v)`: the links, or the exception |
| LinkParser.ParseLinesAppend | main.py:46-64 | the links of consecutive lines come out in line order; an exception in either part ends the call |
| LinkParser.ConcatFailIff | main.py:46-64 | the loop raises exactly when one of its steps raises |
| LinkParser.ParseLinesFailPrefix | main.py:54 | once a line has raised, the call raises whatever follows |
| LinkParser.BlankLineIgnored | main.py:47-49 | a blank or whitespace-only line contributes nothing, wherever it stands |
| LinkParser.AsWrittenFailsIff | main.py:52-54 | as written, the call raises exactly when some line is non-blank and holds no public range link |
| LinkParser.CorrectedNoMatchKeepsLine | main.py:62-64 | corrected, a non-blank line in which neither pattern matches is kept, stripped, as one link |
| LinkParser.SingleLinkLine | main.py:53-54 | a non-blank line without "-" raises as written; corrected, it is kept as one stripped link |
| LinkParser.CorrectedNeverFails | main.py:53-64 | corrected, the call never raises |
| LinkParser.CorrectedAgreesWhenNoFailure | main.py:53-54 | whenever the code as written returns, the corrected reading returns the same links |
| LinkParser.RangeLineExpands | main.py:52-61 | a line that starts and ends without whitespace and holds a public range link, with text before it in which no match starts and text after it that does not continue the last id, yields exactly the range's links under `https://t.me/<name>/` |
| LinkParser.ParseLineStrip | main.py:47 | the loop body depends on a raw line only through its strip |
| LinkParser.RangeLineExpandsPadded | main.py:47-61 | the same line with any whitespace before and after it, as inside a multi-line argument, yields the same links |
| LinkParser.RangeLineExpandsAfterPlainText | main.py:47-61 | a public range link line, with any whitespace around it, expands to the range's links when the text before the link holds no "h", so that no match can start in it |
| LinkParser.PrivateRangeLineExpands | main.py:51-61 | a private `https://t.me/c/<id>/<a>-<b>` line raises as written; corrected, it yields the links of a..b under `https://t.me/c/<id>/` |
| LinkParser.PublicMissesPrivate | main.py:52 | the public pattern never matches a private range line, because it reads "c" as the name and then finds "/" where it needs "-" |
| LinkParser.OneLine | main.py:44-46 | a stripped, non-empty text without line boundaries is parsed as its single line |
| ParseExamples.RangeExample | main.py:52-61 | `https://t.me/foo/10-12` gives the links of posts 10, 11 and 12 |
| ParseExamples.LeadingZerosExample | main.py:57-61 | `https://t.me/foo/007-008` gives the links of posts 7 and 8 |
| ParseExamples.MixedExampleAsWritten | main.py:53-54 | a plain post link above a range line makes the code as written raise |
| ParseExamples.MixedExampleCorrected | main.py:53-64 | corrected, the same input gives the plain link followed by the expanded range |
| BatchHandler.BatchDownloadMedia | main.py:93-105 | the usage reply (its fixed text) is given exactly when there are fewer than two command tokens; otherwise the handler escapes exactly when the arguments' parse raises, and dispatches exactly when it returns, handling every parsed link, the k-th with the k-th outcome |
| BatchHandler.CollectLinks | main.py:101-103 | the loop's list is `parse_link_or_range` of each argument concatenated in argument order, or the exception of the first argument that raises |
| BatchHandler.DispatchLinks | main.py:105-163 | one report per link, each exactly the handling of that link: no link's failure stops the loop |
| BatchHandler.ParseItems | main.py:101-103 | no arguments give no links, and one argument gives exactly `parse_link_or_range` of it; ParseItemsAppend and ParseItemsFailIff state the rest |
| BatchHandler.ParseItemsAppend | main.py:101-103 | the links of consecutive arguments come out in argument order |
| BatchHandler.ParseItemsFailIff | main.py:101-103 | the handler escapes exactly when one argument's parse raises |
| BatchHandler.AsWrittenEscapesIff | main.py:101-103 | as written, the handler escapes exactly when some argument has a non-blank line without a public range link |
| BatchHandler.PlainLinkArgumentEscapes | main.py:54 | as written, a single plain post-link argument such as `https://t.me/foo/5` makes the whole command escape |
| BatchHandler.CorrectedNeverEscapes | main.py:101-103 | corrected, the arguments always parse |
| BatchHandler.MediaKindOf | main.py:131-139 | the kind is photo exactly for photos, video for non-photo videos, audio for the remaining audio files, and document otherwise |
| BatchHandler.ReplyBody | main.py:154 | the reply is the parsed text when it is non-empty and the parsed caption otherwise; it is empty only when both are |
| BatchHandler.ShapeOf | main.py:119-156 | the post is treated as an album exactly when it has a media group id, then as single media, then as text, then as empty |
| BatchHandler.TryBlock | main.py:106-156 | the first of the fetch, the caption parse, the text parse and (for an album) processMediaGroup that raises ends the block before any event, and its exception is the one answered; a block that finishes leaves at least one event |
| BatchHandler.SendMedia | main.py:124-151 | the media branch leaves the progress reply first and at most five events, all five exactly when it finishes; the first of download, send, remove and delete that raises stops it right after the events of the calls before it, and its exception is the one answered |
| BatchHandler.ErrorReply | main.py:158-163 | the membership hint is sent exactly for PeerIdInvalid; any other exception gets `**❌ Failed to download {link}: {e}**` |
| BatchHandler.HandleLink | main.py:105-163 | handling a link leaves at least one event, and an exception is answered by its `except` reply as the last event (an event, not always a reply: an album that processMediaGroup accepts leaves only `GroupProcessed(true)`) |
| BatchHandler.UnreachablePostReply | main.py:158-163 | a post that cannot be fetched gets one reply: the membership hint for PeerIdInvalid, otherwise the link and the exception text |
| BatchHandler.SendMediaEvents | main.py:124-151 | the media branch starts with the progress reply; when it finishes it has downloaded, sent, removed the file and deleted the progress message, in that order |
| BatchHandler.SendMediaPrefix | main.py:124-163 | in the media branch, the events are a prefix of that full sequence, followed by the error reply when a call raised |
| BatchHandler.DownloadOnlyForSingleMedia | main.py:119-128 | a download happens only for a fetched post that has media and no media group |
| BatchHandler.SentIsDownloaded | main.py:128-148 | the file sent is the file just downloaded, sent as the kind chosen by the priority, with the parsed caption |
| BatchHandler.TextOrNothingReply | main.py:153-156 | a post without album or media gets `parsed_text or parsed_caption` when it has a text or a caption, otherwise the fixed notice |
| BatchHandler.AlbumReply | main.py:119-122 | an album for which processMediaGroup returns False gets the fixed reply; one for which it returns True gets no reply from the handler |

## Left out

- Python's `\s`, `\d`, `str.strip` and `str.splitlines` are modelled on ASCII only. Their Unicode members (for example non-ASCII digits, which `int()` also reads) are not modelled.
- `int()`'s limit on the number of digits it converts is not modelled.
- Pyrogram's splitting of the command into `message.command` is not modelled. The handler takes the token list as given.
- `getChatMsgID`, `user.get_messages`, `get_parsed_msg`, `processMediaGroup`, `chat_message.download`, `send_media`, `os.remove` and `progress_message.delete` are outcomes supplied by `LinkEnv`. Their internals, including what `processMediaGroup` itself sends, are not modelled.
- Every `message.reply` is taken to succeed. A reply that raised inside the `try` would be caught, and one that raised inside an `except` clause would escape the handler; neither case is modelled.
- Logging, `time()` and the progress reporting inside `send_media` are not modelled. The `if document or video or audio: pass` on main.py:112-114 has no effect and is not modelled.
- Async scheduling is not modelled: the handler is modelled as running to completion, link by link.
- Client construction, the `/start`, `/help` and `/stats` handlers and the unused `fileSizeLimit` import are outside this model.
- Telegram's rejection of an empty reply (when the parsed text and caption are both empty) is not modelled. The model records the attempted reply.

## Findings

| source | as written | input that shows it | evidently intended | confidence | as-written member | corrected member |
|---|---|---|---|---|---|---|
| main.py:54 | `re.search` is given the private-channel pattern but no string, so it raises `TypeError` whenever the public pattern did not match a non-blank line; the single-link branch of main.py:62-64 is unreachable, and the exception ends the whole `/batch` command | the line `https://t.me/foo/5`, or the private range `https://t.me/c/123/5-6` | search the line for the private-channel range, and otherwise keep the line as a single link | high, not executed | ParseExamples.MixedExampleAsWritten | ParseExamples.MixedExampleCorrected |
