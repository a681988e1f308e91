/**
 * The chat overlay `Chat` of src/index.js, with its DOM container abstracted
 * as the sequence of chat lines it holds, oldest first.
 */
module ChatOverlay {
  import opened Wrappers
  import opened JsText
  import opened Catalog
  import opened Segmenter
  import opened Badges
  import opened EmoteStore

  /** An `<img>` element: its `src`, `alt` and `title`. */
  datatype Img = Img(src: string, alt: string, title: string)

  /** One rendered part of a message: a text span, or a span holding an emote image. */
  datatype Node = TextSpan(text: string) | EmoteSpan(img: Img)

  /** One chat line: the badge images, the name, its color if one was set, and the message parts. */
  datatype Line = Line(badges: seq<Img>, name: string, color: Option<string>, parts: seq<Node>)

  /** The tags of a chat message the overlay reads. */
  datatype Tags = Tags(
    displayName: Option<string>,
    username: string,
    color: Option<string>,
    badgesRaw: Option<string>,
    emotes: seq<InlineEmote>)

  /** The constructor's `options`; only `limit` is modelled. */
  datatype ChatOptions = ChatOptions(limit: Option<int>)

  /** The line limit, 30 by default: the default only replaces a missing value, so 0 is kept. */
  function LimitOf(options: ChatOptions): (limit: int)
    ensures options.limit.None? ==> limit == 30
    ensures options.limit.Some? ==> limit == options.limit.value
  {
    match options.limit
    case None => 30
    case Some(n) => n
  }

  /** The name shown: the display name unless it is missing or empty, else the username. */
  function DisplayName(tags: Tags): (name: string)
    ensures tags.displayName.Some? && tags.displayName.value != [] ==> name == tags.displayName.value
    ensures tags.displayName.None? || tags.displayName.value == [] ==> name == tags.username
  {
    if tags.displayName.Some? && tags.displayName.value != [] then tags.displayName.value else tags.username
  }

  /** The name's color is set only when the tags carry a non-empty color, and then it is that color. */
  function NameColor(tags: Tags): (color: Option<string>)
    ensures color.Some? <==> tags.color.Some? && tags.color.value != []
    ensures color.Some? ==> color == tags.color
  {
    if tags.color.Some? && tags.color.value != [] then tags.color else None
  }

  /** A badge renders as an image whose src is its url and whose alt and title are its name. */
  function BadgeImg(b: Badge): Img
  {
    Img(b.url, b.name, b.name)
  }

  function BadgeImgs(badges: seq<Badge>): (r: seq<Img>)
    ensures |r| == |badges|
    ensures forall i :: 0 <= i < |badges| ==> r[i] == BadgeImg(badges[i])
  {
    seq(|badges|, i requires 0 <= i < |badges| => BadgeImg(badges[i]))
  }

  /** The loop over the badges, one image per badge, in order. */
  method RenderBadges(badges: seq<Badge>) returns (imgs: seq<Img>)
    ensures |imgs| == |badges|
    ensures forall i :: 0 <= i < |badges| ==>
      imgs[i].src == badges[i].url && imgs[i].alt == badges[i].name && imgs[i].title == badges[i].name
  {
    imgs := [];
    for i := 0 to |badges|
      invariant |imgs| == i
      invariant forall j :: 0 <= j < i ==> imgs[j] == BadgeImg(badges[j])
    {
      imgs := imgs + [Img(badges[i].url, badges[i].name, badges[i].name)];
    }
  }

  /** What one part renders to: a text span, an emote image, or nothing for an unknown type. */
  function NodesOf(p: Part): (r: seq<Node>)
    ensures |r| == (if p.OtherPart? then 0 else 1)
    ensures p.TextPart? ==> r[0] == TextSpan(p.content)
    ensures p.EmotePart? ==> r[0].EmoteSpan? && r[0].img.src == p.url && r[0].img.alt == p.name && r[0].img.title == p.name
  {
    match p
    case TextPart(c) => [TextSpan(c)]
    case EmotePart(name, url, _) => [EmoteSpan(Img(url, name, name))]
    case OtherPart(_) => []
  }

  /** The rendered parts, in part order. */
  function Rendered(parts: seq<Part>): (r: seq<Node>)
    ensures |r| <= |parts|
    decreases |parts|
  {
    if parts == [] then [] else NodesOf(parts[0]) + Rendered(parts[1..])
  }

  /** A node is rendered for every part exactly when no part has an unknown type. */
  lemma {:induction false} RenderedLength(parts: seq<Part>)
    ensures |Rendered(parts)| == |parts| <==> forall i :: 0 <= i < |parts| ==> !parts[i].OtherPart?
    decreases |parts|
  {
    if parts != [] {
      RenderedLength(parts[1..]);
      assert forall i :: 1 <= i < |parts| ==> parts[i] == parts[1..][i - 1];
    }
  }

  /** Rendering a concatenation renders the two halves one after the other. */
  lemma {:induction false} RenderedAppend(a: seq<Part>, b: seq<Part>)
    ensures Rendered(a + b) == Rendered(a) + Rendered(b)
    decreases |a|
  {
    if a == [] {
      assert a + b == b;
    } else {
      assert (a + b)[1..] == a[1..] + b;
      RenderedAppend(a[1..], b);
    }
  }

  /**
   * When no part has an unknown type, the i-th node renders the i-th part:
   * text with exactly its content, an emote as an image with src = url and
   * alt = title = name.
   */
  lemma {:induction false} RenderedPointwise(parts: seq<Part>)
    requires forall i :: 0 <= i < |parts| ==> !parts[i].OtherPart?
    ensures |Rendered(parts)| == |parts|
    ensures forall i :: 0 <= i < |parts| ==>
      (parts[i].TextPart? ==> Rendered(parts)[i] == TextSpan(parts[i].content))
      && (parts[i].EmotePart? ==> Rendered(parts)[i] == EmoteSpan(Img(parts[i].url, parts[i].name, parts[i].name)))
    decreases |parts|
  {
    if parts != [] {
      RenderedPointwise(parts[1..]);
      assert forall i :: 1 <= i < |parts| ==> parts[i] == parts[1..][i - 1];
    }
  }

  /** The loop over the parts: `appendChild` for text and emote parts, a logged error otherwise. */
  method RenderParts(parts: seq<Part>) returns (nodes: seq<Node>)
    ensures nodes == Rendered(parts)
  {
    nodes := [];
    var i := 0;
    while i < |parts|
      invariant 0 <= i <= |parts|
      invariant nodes == Rendered(parts[..i])
    {
      RenderedAppend(parts[..i], [parts[i]]);
      assert parts[..i + 1] == parts[..i] + [parts[i]];
      assert Rendered([parts[i]]) == NodesOf(parts[i]);
      match parts[i] {
        case TextPart(c) =>
          nodes := nodes + [TextSpan(c)];
        case EmotePart(name, url, _) =>
          nodes := nodes + [EmoteSpan(Img(url, name, name))];
        case OtherPart(_) =>
      }
      i := i + 1;
    }
    assert parts[..|parts|] == parts;
  }

  /** The line a message renders to. */
  function LineOf(badges: seq<Badge>, tags: Tags, parts: seq<Part>): (line: Line)
    ensures |line.badges| == |badges|
    ensures forall i :: 0 <= i < |badges| ==> line.badges[i] == Img(badges[i].url, badges[i].name, badges[i].name)
    ensures line.name == DisplayName(tags) && line.color == NameColor(tags)
    ensures line.parts == Rendered(parts)
  {
    Line(BadgeImgs(badges), DisplayName(tags), NameColor(tags), Rendered(parts))
  }

  /** How many lines a limit lets stay: a negative limit keeps none. */
  function Capacity(limit: int): nat
  {
    if limit < 0 then 0 else limit
  }

  /**
   * Appending a line, then removing the first (oldest) one if the count now
   * exceeds the limit. Exactly one line is removed when that happens, the new
   * line is last unless it was itself removed, and the earlier lines keep
   * their order.
   */
  function Appended(lines: seq<Line>, line: Line, limit: int): (r: seq<Line>)
    ensures |r| == if |lines| + 1 > limit then |lines| else |lines| + 1
    ensures r == (lines + [line])[|lines| + 1 - |r|..]
    ensures r != [] ==> r[|r| - 1] == line
    ensures |lines| <= Capacity(limit) ==> |r| <= Capacity(limit)
  {
    var grown := lines + [line];
    if |grown| > limit then grown[1..] else grown
  }

  class Chat {
    var limit: int
    var lines: seq<Line>
    var store: Store

    ghost predicate Valid()
      reads this, store
    {
      store.Valid() && |lines| <= Capacity(limit)
    }

    /** `new Chat(element, options)` with `limit` defaulted; no line is shown yet. */
    constructor (store: Store, options: ChatOptions)
      requires store.Valid()
      ensures Valid() && this.store == store
      ensures limit == LimitOf(options) && lines == []
    {
      this.store := store;
      limit := LimitOf(options);
      lines := [];
    }

    /**
     * `message(channel, tags, message)`: resolves the badges, segments the
     * message (which may learn Twitch emotes into the store), appends the
     * rendered line and evicts the oldest line when over the limit. When
     * `getBadges` throws (a badge tag for a channel with no entry) the call
     * stops there and nothing changes.
     */
    method Message(channel: string, tags: Tags, message: string)
      requires Valid()
      requires CanSegment(store.assets, message, tags.emotes, channel)
      modifies this, store
      ensures Valid() && store == old(store) && limit == old(limit)
      ensures var badges := GetBadges(old(store.assets), tags.badgesRaw, channel);
        var handled := Handle(old(store.assets), message, tags.emotes, channel);
        if badges.None? then store.assets == old(store.assets) && lines == old(lines)
        else (store.assets == handled.0
          && lines == Appended(old(lines), LineOf(badges.value, tags, handled.1), limit))
    {
      var badges := GetBadges(store.assets, tags.badgesRaw, channel);
      if badges.None? {
        return;
      }
      var parts := store.HandleEmotes(message, tags.emotes, channel);
      var badgeImgs := RenderBadges(badges.value);
      assert badgeImgs == BadgeImgs(badges.value);
      var nodes := RenderParts(parts);
      var line := Line(badgeImgs, DisplayName(tags), NameColor(tags), nodes);
      lines := lines + [line];
      if |lines| > limit {
        lines := lines[1..];
      }
    }
  }
}
