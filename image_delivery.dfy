/** One delivery, `send_img` in main.py: ask the image API for one picture,
    return quietly when it has none, otherwise caption it and hand it to the
    host's send primitive under a 90-second deadline. The HTTP exchange and the
    host send are not modelled; their outcomes are parameters. */
module ImageDelivery {
  import opened Wrappers
  import opened Text

  /** Seconds allowed for the host send before it is reported as a timeout. */
  const SendTimeoutSec := 90
  /** Display name of the forwarded node. */
  const ForwardNodeName := "AutoImg"

  /** The JSON body posted to the image API. */
  datatype Request = Request(size: string, excludeAI: bool, r18: int)

  /** One candidate of the API's `data` array; `tags` is `None` for a JSON null. */
  datatype Artwork = Artwork(
    urls: map<string, string>,
    title: string,
    author: string,
    pid: nat,
    tags: Option<seq<string>>)

  /** What the API exchange produced: `Failed` for a transport error, a
      non-2xx status or a body without the expected keys (all raise in
      `send_img`), otherwise the `data` array. */
  datatype ApiResponse = Failed | Listing(data: seq<Artwork>)

  /** What the host send primitive did with the message. */
  datatype Delivery = Delivered | TimedOut | Rejected

  /** The outbound message: image then caption, either as a flat two-part
      message or wrapped in one forwarded node attributed to the bot. */
  datatype Payload =
    | Flat(url: string, caption: string)
    | Forwarded(uin: string, name: string, url: string, caption: string)

  /** Why `send_img` raised. */
  datatype SendError =
    | FetchFailed
    | SizeMissing(size: string)
    | SendTimeout(address: string, seconds: int)
    | SendFailed

  /** How `send_img` ended: returned with nothing to send, returned after a
      send, or raised. */
  datatype SendImgResult = NothingToSend | Sent(payload: Payload) | Raised(error: SendError)

  /** `send_img` returned normally (its caller treats this as success). */
  predicate Succeeded(r: SendImgResult) {
    !r.Raised?
  }

  function BuildRequest(imageSize: string, r18: int): (req: Request)
    ensures req.excludeAI && req.size == imageSize && req.r18 == r18
  {
    Request(imageSize, true, r18)
  }

  /** Each tag with a leading '#'. */
  function Hashed(tags: seq<string>): (r: seq<string>)
    ensures |r| == |tags|
    ensures forall i :: 0 <= i < |r| ==> r[i] == "#" + tags[i]
  {
    seq(|tags|, i requires 0 <= i < |tags| => "#" + tags[i])
  }

  /** `' '.join(f'#{tag}' for tag in (tags or []))`. */
  function TagLine(tags: Option<seq<string>>): string
  {
    Join(Hashed(tags.GetOr([])), ' ')
  }

  /** The caption text of the message. */
  function Caption(art: Artwork): string
  {
    "标题：" + art.title + "\n作者：" + art.author + "\nPID：" + DecimalString(art.pid)
      + "\n标签：" + TagLine(art.tags)
  }

  /** The four labelled lines the caption is made of. */
  function CaptionLines(art: Artwork): seq<string>
  {
    ["标题：" + art.title, "作者：" + art.author, "PID：" + DecimalString(art.pid),
     "标签：" + TagLine(art.tags)]
  }

  predicate NoNewline(s: string) {
    '\n' !in s
  }

  predicate TagsWithoutNewline(tags: Option<seq<string>>) {
    forall i :: 0 <= i < |tags.GetOr([])| ==> NoNewline(tags.GetOr([])[i])
  }

  /** When no field contains a line break, the caption splits back into
      exactly its four labelled lines. */
  lemma CaptionSplitsIntoLines(art: Artwork)
    requires NoNewline(art.title) && NoNewline(art.author) && TagsWithoutNewline(art.tags)
    ensures Split(Caption(art), '\n') == CaptionLines(art)
  {
    var lines := CaptionLines(art);
    var hashed := Hashed(art.tags.GetOr([]));
    forall i | 0 <= i < |hashed| ensures '\n' !in hashed[i] {
      assert hashed[i] == "#" + art.tags.GetOr([])[i];
    }
    JoinAvoids(hashed, ' ', '\n');
    assert '\n' !in DecimalString(art.pid);
    assert Join(lines[3..], '\n') == lines[3];
    assert Join(lines[2..], '\n') == lines[2] + "\n" + lines[3];
    assert Join(lines[1..], '\n') == lines[1] + "\n" + lines[2] + "\n" + lines[3];
    assert Join(lines, '\n') == Caption(art);
    SplitJoin(lines, '\n');
  }

  /** A null tag list and an empty one give the same, empty, tag line. */
  lemma NullTagsAreEmpty()
    ensures TagLine(None) == TagLine(Some([])) == ""
  {
  }

  /** Tags without spaces are recovered from the tag line by splitting on
      spaces: the tag line lists every tag, in order, each once. */
  lemma TagLineSplits(tags: seq<string>)
    requires |tags| >= 1
    requires forall i :: 0 <= i < |tags| ==> ' ' !in tags[i]
    ensures Split(TagLine(Some(tags)), ' ') == Hashed(tags)
  {
    var hashed := Hashed(tags);
    forall i | 0 <= i < |hashed| ensures ' ' !in hashed[i] {
      assert hashed[i] == "#" + tags[i];
    }
    SplitJoin(hashed, ' ');
  }

  /** The message built for the first candidate, in the chosen presentation. */
  function Compose(botQQ: string, forward: bool, url: string, caption: string): (p: Payload)
    ensures p.url == url && p.caption == caption
    ensures p.Forwarded? <==> forward
    ensures p.Forwarded? ==> p.uin == botQQ && p.name == ForwardNodeName
  {
    if forward then Forwarded(botQQ, ForwardNodeName, url, caption) else Flat(url, caption)
  }

  /** `send_img(address, r18, forward)` given what the API answered and what
      the host send did. */
  function SendImg(imageSize: string, botQQ: string, address: string, forward: bool,
                   response: ApiResponse, delivery: Delivery): (r: SendImgResult)
    ensures r.NothingToSend? <==> response == Listing([])
    ensures r.Sent? ==>
              && delivery == Delivered && response.Listing? && |response.data| > 0
              && imageSize in response.data[0].urls
              && r.payload.url == response.data[0].urls[imageSize]
              && r.payload.caption == Caption(response.data[0])
              && (r.payload.Forwarded? <==> forward)
    ensures response.Failed? ==> r == Raised(FetchFailed)
    ensures r.Raised? && r.error.SendTimeout? ==> r.error == SendTimeout(address, 90) && delivery == TimedOut
    ensures (response.Listing? && |response.data| > 0 && imageSize in response.data[0].urls
             && delivery == TimedOut) ==> r == Raised(SendTimeout(address, SendTimeoutSec))
  {
    match response
    case Failed => Raised(FetchFailed)
    case Listing(data) =>
      if |data| == 0 then NothingToSend
      else
        var art := data[0];
        if imageSize !in art.urls then Raised(SizeMissing(imageSize))
        else
          var payload := Compose(botQQ, forward, art.urls[imageSize], Caption(art));
          match delivery
          case Delivered => Sent(payload)
          case TimedOut => Raised(SendTimeout(address, SendTimeoutSec))
          case Rejected => Raised(SendFailed)
  }

  /** `send_img` returns normally exactly when the API had nothing, or when it
      had a picture in the configured size and the host delivered it. */
  lemma SucceedsExactly(imageSize: string, botQQ: string, address: string, forward: bool,
                        response: ApiResponse, delivery: Delivery)
    ensures Succeeded(SendImg(imageSize, botQQ, address, forward, response, delivery)) <==>
      (response == Listing([]) ||
       (response.Listing? && |response.data| > 0 && imageSize in response.data[0].urls
        && delivery == Delivered))
  {
  }

  /** The presentation switch changes the wrapping only: both modes carry the
      same image and caption and end the same way. */
  lemma PresentationIsCosmetic(imageSize: string, botQQ: string, address: string,
                               response: ApiResponse, delivery: Delivery)
    ensures var flat := SendImg(imageSize, botQQ, address, false, response, delivery);
            var fwd := SendImg(imageSize, botQQ, address, true, response, delivery);
            flat.Sent? == fwd.Sent? && Succeeded(flat) == Succeeded(fwd)
            && (flat.Sent? ==> flat.payload.url == fwd.payload.url
                               && flat.payload.caption == fwd.payload.caption)
  {
  }
}
