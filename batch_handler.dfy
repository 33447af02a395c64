/**
 The `/batch` command handler `batch_download_media` (main.py:92-163), with
 every call into the Telegram client, the helpers and the file system
 replaced by the outcome the outside world gives it. What the handler does is
 recorded as a sequence of events: the replies it sends to the user and the
 side effects it starts.
 */
module BatchHandler {
  import opened PyText
  import opened LinkParser

  // ---------------------------------------------------------------------------
  // The outside world

  /** An exception raised by a call: Pyrogram's PeerIdInvalid, or any other
      exception together with its `str(e)`. */
  datatype Error = PeerIdInvalid | Other(description: string)

  /** A call that returns a value or raises. */
  datatype Outcome<T> = Ok(value: T) | Raised(error: Error)

  /** A call made for its effect, which completes or raises. */
  datatype Step = Done | Failed(error: Error)

  /** The fields of a fetched post that the handler reads: whether it belongs
      to an album, carries media, is a photo, a video or an audio file, and its
      text and caption (a missing one read as ""). */
  datatype Message = Message(
    mediaGroup: bool,
    media: bool,
    photo: bool,
    video: bool,
    audio: bool,
    text: string,
    caption: string)

  /** What the outside world does when the handler works on one link. */
  datatype LinkEnv = LinkEnv(
    resolved: Outcome<Message>,      // getChatMsgID(link), then user.get_messages
    parsedCaption: Outcome<string>,  // get_parsed_msg on the caption
    parsedText: Outcome<string>,     // get_parsed_msg on the text
    album: Outcome<bool>,            // processMediaGroup
    download: Outcome<string>,       // chat_message.download(): the local path
    send: Step,                      // send_media
    remove: Step,                    // os.remove(media_path)
    deleteProgress: Step)            // progress_message.delete()

  datatype MediaKind = Photo | Video | Audio | Document

  /** What the handler does, in order. */
  datatype Event =
    | Reply(text: string)                                    // message.reply
    | GroupProcessed(ok: bool)                               // processMediaGroup returned ok
    | Downloaded(path: string)
    | MediaSent(path: string, kind: MediaKind, caption: string)
    | FileRemoved(path: string)
    | ProgressDeleted

  // ---------------------------------------------------------------------------
  // Fixed replies

  const UsageText: string := "**Provide post URLs or a range of post URLs after the /batch command.**"
  const GroupFailedText: string := "**Could not extract any valid media from the media group.**"
  const ProgressText: string := "**\U{1F4E5} Downloading Progress...**"
  const NothingFoundText: string := "**No media or text found in the post URL.**"
  const NotMemberText: string := "**Make sure the user client is part of the chat.**"

  /** `f"**❌ Failed to download {link}: {str(e)}**"`. */
  function FailedText(link: string, description: string): string {
    "**\U{274C} Failed to download " + link + ": " + description + "**"
  }

  // ---------------------------------------------------------------------------
  // Decisions

  /** The chain of conditional expressions on main.py:131-139. */
  function MediaKindOf(msg: Message): (kind: MediaKind)
    ensures kind == Photo <==> msg.photo
    ensures kind == Video <==> !msg.photo && msg.video
    ensures kind == Audio <==> !msg.photo && !msg.video && msg.audio
    ensures kind == Document <==> !msg.photo && !msg.video && !msg.audio
  {
    if msg.photo then Photo
    else if msg.video then Video
    else if msg.audio then Audio
    else Document
  }

  /** `parsed_text or parsed_caption` (main.py:154). */
  function ReplyBody(parsedText: string, parsedCaption: string): (body: string)
    ensures parsedText != [] ==> body == parsedText
    ensures parsedText == [] ==> body == parsedCaption
    ensures body == [] <==> parsedText == [] && parsedCaption == []
  {
    if parsedText != [] then parsedText else parsedCaption
  }

  /** The four shapes a post can take, in the order the handler tests them. */
  datatype Shape = Album | SingleMedia | TextOnly | Empty

  function ShapeOf(msg: Message): (shape: Shape)
    ensures shape == Album <==> msg.mediaGroup
    ensures shape == SingleMedia <==> !msg.mediaGroup && msg.media
    ensures shape == TextOnly <==> !msg.mediaGroup && !msg.media && (msg.text != [] || msg.caption != [])
    ensures shape == Empty <==> !msg.mediaGroup && !msg.media && msg.text == [] && msg.caption == []
  {
    if msg.mediaGroup then Album
    else if msg.media then SingleMedia
    else if msg.text != [] || msg.caption != [] then TextOnly
    else Empty
  }

  /** How the `try` block of main.py:106-156 ends: it runs to the end, or an
      exception interrupts it after the events it has already caused. */
  datatype Attempt = Finished(events: seq<Event>) | Interrupted(events: seq<Event>, error: Error)

  /** The `try` block for one link. */
  function TryBlock(env: LinkEnv): (r: Attempt)
    ensures env.resolved.Raised? ==> r == Interrupted([], env.resolved.error)
    ensures env.resolved.Ok? && env.parsedCaption.Raised? ==> r == Interrupted([], env.parsedCaption.error)
    ensures env.resolved.Ok? && env.parsedCaption.Ok? && env.parsedText.Raised? ==>
      r == Interrupted([], env.parsedText.error)
    ensures env.resolved.Ok? && env.parsedCaption.Ok? && env.parsedText.Ok? ==>
      env.resolved.value.mediaGroup && env.album.Raised? ==> r == Interrupted([], env.album.error)
    ensures r.Finished? ==> r.events != []
  {
    match env.resolved
    case Raised(e) => Interrupted([], e)
    case Ok(msg) =>
      match env.parsedCaption
      case Raised(e) => Interrupted([], e)
      case Ok(caption) =>
        match env.parsedText
        case Raised(e) => Interrupted([], e)
        case Ok(text) =>
          match ShapeOf(msg)
          case Album =>
            (match env.album
             case Raised(e) => Interrupted([], e)
             case Ok(ok) =>
               if ok then Finished([GroupProcessed(true)])
               else Finished([GroupProcessed(false), Reply(GroupFailedText)]))
          case SingleMedia => SendMedia(msg, caption, env)
          case TextOnly => Finished([Reply(ReplyBody(text, caption))])
          case Empty => Finished([Reply(NothingFoundText)])
  }

  /** main.py:125-151: announce progress, download, send, remove the file,
      delete the progress message; each call may raise. */
  function SendMedia(msg: Message, caption: string, env: LinkEnv): (r: Attempt)
    ensures 1 <= |r.events| <= 5 && r.events[0] == Reply(ProgressText)
    ensures r.Finished? <==> |r.events| == 5
    ensures env.download.Raised? ==> r == Interrupted([Reply(ProgressText)], env.download.error)
    ensures env.download.Ok? && env.send.Failed? ==>
      r == Interrupted([Reply(ProgressText), Downloaded(env.download.value)], env.send.error)
    ensures env.download.Ok? && env.send.Done? && env.remove.Failed? ==>
      r == Interrupted([Reply(ProgressText), Downloaded(env.download.value),
                        MediaSent(env.download.value, MediaKindOf(msg), caption)], env.remove.error)
    ensures env.download.Ok? && env.send.Done? && env.remove.Done? && env.deleteProgress.Failed? ==>
      r == Interrupted([Reply(ProgressText), Downloaded(env.download.value),
                        MediaSent(env.download.value, MediaKindOf(msg), caption),
                        FileRemoved(env.download.value)], env.deleteProgress.error)
  {
    var announced := [Reply(ProgressText)];
    match env.download
    case Raised(e) => Interrupted(announced, e)
    case Ok(path) =>
      var fetched := announced + [Downloaded(path)];
      match env.send
      case Failed(e) => Interrupted(fetched, e)
      case Done =>
        var sent := fetched + [MediaSent(path, MediaKindOf(msg), caption)];
        match env.remove
        case Failed(e) => Interrupted(sent, e)
        case Done =>
          var removed := sent + [FileRemoved(path)];
          match env.deleteProgress
          case Failed(e) => Interrupted(removed, e)
          case Done => Finished(removed + [ProgressDeleted])
  }

  /** The two `except` clauses of main.py:158-163. */
  function ErrorReply(link: string, e: Error): (text: string)
    ensures text == NotMemberText <==> e == PeerIdInvalid
    ensures e.Other? ==> text == FailedText(link, e.description)
  {
    match e
    case PeerIdInvalid => NotMemberText
    case Other(description) =>
      assert NotMemberText[2] == "**Make"[2] == 'M';
      assert FailedText(link, description)[2] == '\U{274C}';
      FailedText(link, description)
  }

  /** One pass of the loop of main.py:105-163: the `try` block, and the reply
      of the matching `except` clause if it raised. Every link leaves at least
      one event, though not always a reply from the handler: an album that
      processMediaGroup accepts leaves only `GroupProcessed(true)`. */
  function HandleLink(link: string, env: LinkEnv): (events: seq<Event>)
    ensures events != []
    ensures TryBlock(env).Interrupted? ==> events[|events| - 1] == Reply(ErrorReply(link, TryBlock(env).error))
  {
    match TryBlock(env)
    case Finished(events) => events
    case Interrupted(events, e) => events + [Reply(ErrorReply(link, e))]
  }

  // ---------------------------------------------------------------------------
  // The handler

  /** The links of the command's arguments: parse_link_or_range on each, in
      order, concatenated; a TypeError from any of them escapes. */
  function ParseItems(items: seq<string>, v: Variant): (r: Parsed)
    ensures items == [] ==> r == Links([])
    ensures |items| == 1 ==> r == Parse(items[0], v)
  {
    var outcomes := Outcomes(items, item => Parse(item, v));
    if |items| == 1 then
      assert outcomes == [Parse(items[0], v)];
      ConcatOne(outcomes[0]);
      Concat(outcomes)
    else
      Concat(outcomes)
  }

  /** How an invocation of the handler ends. */
  datatype Run =
    | UsageShown(reply: Event)                               // fewer than two command tokens
    | Escaped                                                // parse_link_or_range raised
    | Dispatched(links: seq<string>, reports: seq<seq<Event>>)  // one report per link

  /** batch_download_media. `command` is `message.command`, the command word
      and its arguments; `world(k)` is what the outside world does for the
      k-th link. */
  method BatchDownloadMedia(command: seq<string>, world: nat -> LinkEnv, v: Variant) returns (run: Run)
    ensures |command| < 2 <==> run == UsageShown(Reply(UsageText))
    ensures |command| >= 2 ==> (run == Escaped <==> ParseItems(command[1..], v) == Fail)
    ensures |command| >= 2 && ParseItems(command[1..], v).Links? ==> run.Dispatched?
    ensures run.Dispatched? ==>
      ParseItems(command[1..], v) == Links(run.links) &&
      |run.reports| == |run.links| &&
      forall k | 0 <= k < |run.links| :: run.reports[k] == HandleLink(run.links[k], world(k))
  {
    if |command| < 2 {
      return UsageShown(Reply(UsageText));
    }
    var parsed := CollectLinks(command[1..], v);
    if parsed.Fail? {
      return Escaped;
    }
    var reports := DispatchLinks(parsed.links, world);
    return Dispatched(parsed.links, reports);
  }

  /** main.py:101-103: `all_links.extend(parse_link_or_range(item))` for each
      argument. */
  method CollectLinks(items: seq<string>, v: Variant) returns (r: Parsed)
    ensures r == ParseItems(items, v)
  {
    var allLinks: seq<string> := [];
    var step := item => Parse(item, v);
    for n := 0 to |items|
      invariant Concat(Outcomes(items[..n], step)) == Links(allLinks)
    {
      ConcatStep(items, n, step);
      var parsed := ParseLinkOrRange(items[n], v);
      if parsed.Fail? {
        ConcatFailPrefix(items, n + 1, step);
        return Fail;
      }
      allLinks := allLinks + parsed.links;
    }
    assert items[..|items|] == items;
    return Links(allLinks);
  }

  /** main.py:105-163: every link is handled, whatever happened to the ones
      before it. */
  method DispatchLinks(links: seq<string>, world: nat -> LinkEnv) returns (reports: seq<seq<Event>>)
    ensures |reports| == |links|
    ensures forall k | 0 <= k < |links| :: reports[k] == HandleLink(links[k], world(k))
  {
    reports := [];
    for k := 0 to |links|
      invariant |reports| == k
      invariant forall j | 0 <= j < k :: reports[j] == HandleLink(links[j], world(j))
    {
      reports := reports + [HandleLink(links[k], world(k))];
    }
  }

  // ---------------------------------------------------------------------------
  // Properties of the argument parsing

  /** The arguments' links come out in argument order. */
  lemma ParseItemsAppend(xs: seq<string>, ys: seq<string>, v: Variant)
    ensures ParseItems(xs + ys, v) == Then(ParseItems(xs, v), ParseItems(ys, v))
  {
    ConcatOutcomesAppend(xs, ys, item => Parse(item, v));
  }

  /** The handler escapes with an exception exactly when one of its arguments
      makes parse_link_or_range raise. */
  lemma ParseItemsFailIff(items: seq<string>, v: Variant)
    ensures ParseItems(items, v) == Fail <==> exists k | 0 <= k < |items| :: Parse(items[k], v) == Fail
  {
    var steps := Outcomes(items, item => Parse(item, v));
    ConcatFailIff(steps);
    assert forall k | 0 <= k < |items| :: steps[k] == Parse(items[k], v);
  }

  /** An argument on which the code as written raises: one of its lines is
      non-blank and holds no public range link. */
  predicate ItemRaises(item: string) {
    exists j | 0 <= j < |SplitLines(Strip(item))| :: Raises(SplitLines(Strip(item))[j])
  }

  /** As written, the handler escapes exactly when some argument has such a line. */
  lemma AsWrittenEscapesIff(items: seq<string>)
    ensures ParseItems(items, AsWritten) == Fail <==> exists k | 0 <= k < |items| :: ItemRaises(items[k])
  {
    ParseItemsFailIff(items, AsWritten);
    forall k | 0 <= k < |items|
      ensures Parse(items[k], AsWritten) == Fail <==> ItemRaises(items[k])
    {
      AsWrittenFailsIff(SplitLines(Strip(items[k])));
    }
  }

  /** `/batch https://t.me/foo/5`: as written, one argument that is a plain post
      link (no "-") is enough for the whole command to escape before any link
      is handled. */
  lemma PlainLinkArgumentEscapes(items: seq<string>, k: nat)
    requires k < |items| && !IsBlank(items[k]) && NoLineBreak(items[k]) && '-' !in items[k]
    ensures ParseItems(items, AsWritten) == Fail
  {
    var line := Strip(items[k]);
    StrippedPart(items[k]);
    SingleLinkLine(line);
    OneLine(line, AsWritten);
    assert Parse(items[k], AsWritten) == Parse(line, AsWritten);
    ParseItemsFailIff(items, AsWritten);
  }

  /** Corrected, the handler never escapes: every argument parses. */
  lemma CorrectedNeverEscapes(items: seq<string>)
    ensures ParseItems(items, Corrected).Links?
  {
    ParseItemsFailIff(items, Corrected);
    forall k | 0 <= k < |items|
      ensures Parse(items[k], Corrected) != Fail
    {
      CorrectedNeverFails(SplitLines(Strip(items[k])));
    }
  }

  // ---------------------------------------------------------------------------
  // Properties of the handling of one link

  /** The fetched post, when the fetch and both get_parsed_msg calls returned. */
  predicate Fetched(env: LinkEnv, msg: Message, text: string, caption: string) {
    env.resolved == Ok(msg) && env.parsedText == Ok(text) && env.parsedCaption == Ok(caption)
  }

  /** A link whose post cannot be fetched gets exactly one reply: the fixed
      membership hint for PeerIdInvalid, the link and `str(e)` otherwise. */
  lemma UnreachablePostReply(link: string, env: LinkEnv)
    requires env.resolved.Raised?
    ensures env.resolved.error == PeerIdInvalid ==> HandleLink(link, env) == [Reply(NotMemberText)]
    ensures env.resolved.error.Other? ==>
      HandleLink(link, env) == [Reply(FailedText(link, env.resolved.error.description))]
  {
  }

  /** The media branch starts with the progress reply, and when it finishes it
      has downloaded, sent, removed and deleted in that order. */
  lemma SendMediaEvents(msg: Message, caption: string, env: LinkEnv)
    ensures var a := SendMedia(msg, caption, env);
      a.events != [] && a.events[0] == Reply(ProgressText) &&
      (a.Finished? ==>
        env.download.Ok? &&
        a.events == [Reply(ProgressText), Downloaded(env.download.value),
                     MediaSent(env.download.value, MediaKindOf(msg), caption),
                     FileRemoved(env.download.value), ProgressDeleted])
  {
  }

  /** Shape priority: a post in an album is handed to processMediaGroup and is
      never downloaded here; only a post with media and no album is. */
  lemma DownloadOnlyForSingleMedia(link: string, env: LinkEnv, i: nat)
    requires i < |HandleLink(link, env)| && HandleLink(link, env)[i].Downloaded?
    ensures env.resolved.Ok? && ShapeOf(env.resolved.value) == SingleMedia
    ensures !env.resolved.value.mediaGroup && env.resolved.value.media
  {
    if !(env.resolved.Ok? && env.parsedCaption.Ok? && env.parsedText.Ok? &&
         ShapeOf(env.resolved.value) == SingleMedia) {
      NoDownloadOutsideMedia(link, env);
    }
  }

  lemma NoDownloadOutsideMedia(link: string, env: LinkEnv)
    requires !(env.resolved.Ok? && env.parsedCaption.Ok? && env.parsedText.Ok? &&
               ShapeOf(env.resolved.value) == SingleMedia)
    ensures forall i | 0 <= i < |HandleLink(link, env)| :: !HandleLink(link, env)[i].Downloaded?
  {
  }

  /** What is sent is the file just downloaded, as the kind chosen by the
      photo/video/audio/document priority, with the parsed caption. */
  lemma SentIsDownloaded(link: string, env: LinkEnv, i: nat)
    requires i < |HandleLink(link, env)| && HandleLink(link, env)[i].MediaSent?
    ensures env.resolved.Ok? && env.parsedCaption.Ok? && env.download.Ok?
    ensures var sent := HandleLink(link, env)[i];
      i == 2 && HandleLink(link, env)[1] == Downloaded(sent.path) &&
      sent.path == env.download.value &&
      sent.kind == MediaKindOf(env.resolved.value) &&
      sent.caption == env.parsedCaption.value
  {
    if env.resolved.Ok? && env.parsedCaption.Ok? && env.parsedText.Ok? &&
       ShapeOf(env.resolved.value) == SingleMedia {
      SendMediaPrefix(link, env);
    } else {
      NoSendOutsideMedia(link, env);
    }
  }

  lemma NoSendOutsideMedia(link: string, env: LinkEnv)
    requires !(env.resolved.Ok? && env.parsedCaption.Ok? && env.parsedText.Ok? &&
               ShapeOf(env.resolved.value) == SingleMedia)
    ensures forall i | 0 <= i < |HandleLink(link, env)| :: !HandleLink(link, env)[i].MediaSent?
  {
  }

  /** In the media branch, the events of the link are a prefix of the full
      media sequence, possibly followed by the error reply. */
  lemma SendMediaPrefix(link: string, env: LinkEnv)
    requires env.resolved.Ok? && env.parsedCaption.Ok? && env.parsedText.Ok?
    requires ShapeOf(env.resolved.value) == SingleMedia
    ensures var events := HandleLink(link, env);
      var full := MediaScript(env.resolved.value, env.parsedCaption.value, env);
      exists n | 1 <= n <= |full| ::
        events == full[..n] ||
        (n < |full| && TryBlock(env).Interrupted? &&
         events == full[..n] + [Reply(ErrorReply(link, TryBlock(env).error))])
  {
    var msg := env.resolved.value;
    var caption := env.parsedCaption.value;
    var full := MediaScript(msg, caption, env);
    var a := SendMedia(msg, caption, env);
    assert TryBlock(env) == a;
    if a.Finished? {
      assert HandleLink(link, env) == full[..5];
    } else {
      var n := |a.events|;
      assert 1 <= n < |full| && a.events == full[..n];
    }
  }

  /** The full sequence of events of the media branch when no call raises. */
  function MediaScript(msg: Message, caption: string, env: LinkEnv): (script: seq<Event>)
    ensures |script| == 5
  {
    var path := if env.download.Ok? then env.download.value else "";
    [Reply(ProgressText), Downloaded(path), MediaSent(path, MediaKindOf(msg), caption),
     FileRemoved(path), ProgressDeleted]
  }

  /** A post without album or media gets exactly one reply: `parsed_text or
      parsed_caption` when it has a text or a caption, the fixed notice
      otherwise. */
  lemma TextOrNothingReply(link: string, env: LinkEnv, msg: Message, text: string, caption: string)
    requires Fetched(env, msg, text, caption) && !msg.mediaGroup && !msg.media
    ensures msg.text != [] || msg.caption != [] ==> HandleLink(link, env) == [Reply(ReplyBody(text, caption))]
    ensures msg.text == [] && msg.caption == [] ==> HandleLink(link, env) == [Reply(NothingFoundText)]
  {
  }

  /** An album answered False by processMediaGroup gets the fixed reply; one
      answered True gets none from the handler. */
  lemma AlbumReply(link: string, env: LinkEnv, msg: Message, text: string, caption: string)
    requires Fetched(env, msg, text, caption) && msg.mediaGroup
    ensures env.album == Ok(false) ==> HandleLink(link, env) == [GroupProcessed(false), Reply(GroupFailedText)]
    ensures env.album == Ok(true) ==> HandleLink(link, env) == [GroupProcessed(true)]
  {
  }
}
