/**
 * The message segmenter `handleEmotes` (src/emotes.js): learning Twitch
 * emotes from a message's inline positions, then cutting the message into
 * text and emote parts at the sorted matches.
 */
module Segmenter {
  import opened Wrappers
  import opened JsText
  import opened Catalog
  import opened Matching

  /** One `"start-end"` pair of the `emotes` tag, inclusive at both ends. */
  datatype Position = Position(start: nat, end: nat)

  /** One key of the `emotes` tag: a Twitch emote id and the places it occurs. */
  datatype InlineEmote = InlineEmote(id: string, positions: seq<Position>)

  /** Every inline emote lists at least one position (the code reads the first). */
  predicate WellFormedInline(inline: seq<InlineEmote>)
  {
    forall i :: 0 <= i < |inline| ==> |inline[i].positions| > 0
  }

  /**
   * A part of the result. The segmenter builds only text and emote parts; a
   * part of any other type is what the renderer reports and skips.
   */
  datatype Part =
    | TextPart(content: string)
    | EmotePart(name: string, url: string, kind: EmoteType)
    | OtherPart(tag: string)

  /** The "already known" test of the code: some listed emote is named like the id string. */
  predicate Known(emotes: seq<Emote>, id: string)
  {
    exists i :: 0 <= i < |emotes| && emotes[i].name == id
  }

  /** The emote learned from an inline entry: named by the text at its first position. */
  function TwitchEmote(message: string, ie: InlineEmote): (e: Emote)
    requires |ie.positions| > 0
    ensures e.kind == Twitch && e.id == NoId && e.url == TwitchCdn(ie.id)
    ensures e.name == Substring(message, ie.positions[0].start, ie.positions[0].end + 1)
  {
    var p := ie.positions[0];
    Emote(Substring(message, p.start, p.end + 1), TwitchCdn(ie.id), Twitch, NoId)
  }

  /** One turn of the learning loop: skipped exactly when the id is known by name, else one emote appended. */
  function LearnOne(emotes: seq<Emote>, message: string, ie: InlineEmote): (r: seq<Emote>)
    requires |ie.positions| > 0
    ensures r == emotes <==> Known(emotes, ie.id)
    ensures !Known(emotes, ie.id) ==> r == emotes + [TwitchEmote(message, ie)]
  {
    if Known(emotes, ie.id) then emotes else emotes + [TwitchEmote(message, ie)]
  }

  /** The emote is the one some entry of `inline` teaches. */
  predicate LearnedFrom(message: string, inline: seq<InlineEmote>, e: Emote)
    requires WellFormedInline(inline)
  {
    exists i :: 0 <= i < |inline| && e == TwitchEmote(message, inline[i])
  }

  /**
   * The channel's emote list after the learning loop over `inline`, in order.
   * The old list is a prefix, at most one emote is added per entry, and every
   * added emote is a Twitch emote learned from one of the entries.
   */
  function Learned(emotes: seq<Emote>, message: string, inline: seq<InlineEmote>): (r: seq<Emote>)
    requires WellFormedInline(inline)
    ensures emotes <= r
    ensures |r| <= |emotes| + |inline|
    ensures forall k :: |emotes| <= k < |r| ==> LearnedFrom(message, inline, r[k])
    decreases |inline|
  {
    if inline == [] then emotes
    else
      var init := inline[..|inline| - 1];
      var last := inline[|inline| - 1];
      var before := Learned(emotes, message, init);
      assert forall i :: 0 <= i < |init| ==> init[i] == inline[i];
      LearnOne(before, message, last)
  }

  /** One more turn of the learning loop. */
  lemma LearnedStep(emotes: seq<Emote>, message: string, inline: seq<InlineEmote>, i: nat)
    requires WellFormedInline(inline) && i < |inline|
    ensures WellFormedInline(inline[..i]) && WellFormedInline(inline[..i + 1])
    ensures Learned(emotes, message, inline[..i + 1]) == LearnOne(Learned(emotes, message, inline[..i]), message, inline[i])
  {
    var p := inline[..i + 1];
    assert p[..|p| - 1] == inline[..i];
    assert p[|p| - 1] == inline[i];
  }

  /** The part for a match: its name, url and type. */
  function EmoteOf(m: Match): Part
  {
    EmotePart(m.name, m.url, m.kind)
  }

  /** A text part holding `t`, or no part at all when `t` is the empty (falsy) string. */
  function TextIfAny(t: string): (r: seq<Part>)
    ensures t == [] ==> r == []
    ensures t != [] ==> r == [TextPart(t)]
  {
    if t == [] then [] else [TextPart(t)]
  }

  /** Text parts are never empty and no part has another type. */
  predicate Tidy(parts: seq<Part>)
  {
    forall i :: 0 <= i < |parts| ==> !parts[i].OtherPart? && (parts[i].TextPart? ==> parts[i].content != [])
  }

  /**
   * The emission loop of `handleEmotes` as written, from cursor `cursor`:
   * the text from the cursor to the next match's start (JavaScript
   * `substring`, which swaps its arguments when the match starts before the
   * cursor), the match's emote part, and the cursor moved to the match's end.
   */
  function EmitFrom(s: string, found: seq<Match>, cursor: nat): (r: seq<Part>)
    ensures |found| <= |r| <= 2 * |found| + 1
    decreases |found|
  {
    if found == [] then TextIfAny(Substring(s, cursor, |s|))
    else TextIfAny(Substring(s, cursor, found[0].start)) + [EmoteOf(found[0])] + EmitFrom(s, found[1..], found[0].end)
  }

  /** One turn of the emission: the text up to the first match, its part, then the rest from its end. */
  lemma EmitFromStep(s: string, found: seq<Match>, cursor: nat)
    requires found != []
    ensures EmitFrom(s, found, cursor)
      == TextIfAny(Substring(s, cursor, found[0].start)) + [EmoteOf(found[0])] + EmitFrom(s, found[1..], found[0].end)
  {
  }

  lemma TidyAppend(a: seq<Part>, b: seq<Part>)
    requires Tidy(a) && Tidy(b)
    ensures Tidy(a + b)
  {
    assert forall i :: |a| <= i < |a + b| ==> (a + b)[i] == b[i - |a|];
  }

  /** No emitted text part is empty, and every part is a text or an emote part. */
  lemma {:induction false} EmitTidy(s: string, found: seq<Match>, cursor: nat)
    ensures Tidy(EmitFrom(s, found, cursor))
    decreases |found|
  {
    if found != [] {
      var here := TextIfAny(Substring(s, cursor, found[0].start)) + [EmoteOf(found[0])];
      EmitFromStep(s, found, cursor);
      EmitTidy(s, found[1..], found[0].end);
      TidyAppend(here, EmitFrom(s, found[1..], found[0].end));
    }
  }

  /** Regrouping a prefix and a three-piece remainder, over plain sequences. */
  lemma Regroup<T>(before: seq<T>, whole: seq<T>, total: seq<T>, t: seq<T>, e: T, rest: seq<T>, after: seq<T>)
    requires before + whole == total
    requires whole == t + [e] + rest
    requires after == before + t + [e]
    ensures after + rest == total
  {
  }

  /** The emission from the i-th match on, one turn unfolded. */
  lemma EmitFromAt(s: string, found: seq<Match>, i: nat, cursor: nat)
    requires i < |found|
    ensures EmitFrom(s, found[i..], cursor) == TextIfAny(Substring(s, cursor, found[i].start)) + [EmoteOf(found[i])]
      + EmitFrom(s, found[i + 1..], found[i].end)
  {
    var rest := found[i..];
    assert rest[0] == found[i] && rest[1..] == found[i + 1..];
    EmitFromStep(s, rest, cursor);
  }

  /** One turn of the emission loop keeps the parts pushed so far a prefix of the whole result. */
  lemma EmitTurn(s: string, found: seq<Match>, i: nat, cursor: nat, before: seq<Part>, after: seq<Part>)
    requires i < |found|
    requires before + EmitFrom(s, found[i..], cursor) == EmitFrom(s, found, 0)
    requires after == before + TextIfAny(Substring(s, cursor, found[i].start)) + [EmoteOf(found[i])]
    ensures after + EmitFrom(s, found[i + 1..], found[i].end) == EmitFrom(s, found, 0)
  {
    EmitFromAt(s, found, i, cursor);
    Regroup(before, EmitFrom(s, found[i..], cursor), EmitFrom(s, found, 0),
      TextIfAny(Substring(s, cursor, found[i].start)), EmoteOf(found[i]), EmitFrom(s, found[i + 1..], found[i].end), after);
  }

  /** Once every match is consumed, the trailing text completes the result. */
  lemma EmitLast(s: string, found: seq<Match>, cursor: nat, before: seq<Part>, after: seq<Part>)
    requires before + EmitFrom(s, found[|found|..], cursor) == EmitFrom(s, found, 0)
    requires after == before + TextIfAny(Substring(s, cursor, |s|))
    ensures after == EmitFrom(s, found, 0)
  {
    assert found[|found|..] == [];
  }

  /** With no match the whole message is one text part, or nothing when it is empty. */
  lemma EmitNoMatches(s: string)
    ensures EmitFrom(s, [], 0) == (if s == [] then [] else [TextPart(s)])
  {
    assert Substring(s, 0, |s|) == s;
  }

  /** Pushes a text part for `part` onto the list unless `part` is empty. */
  method PushText(parts: seq<Part>, part: string) returns (r: seq<Part>)
    ensures r == parts + TextIfAny(part)
  {
    r := parts;
    if part != [] {
      r := r + [TextPart(part)];
    }
  }

  /** The emission loop over the sorted matches, one match per turn, and the text after the last match. */
  method Emit(s: string, found: seq<Match>) returns (parts: seq<Part>)
    ensures parts == EmitFrom(s, found, 0)
  {
    parts := [];
    var emoteIdx := 0;
    var stringIdx := 0;
    assert found[0..] == found;
    while emoteIdx < |found|
      invariant 0 <= emoteIdx <= |found|
      invariant parts + EmitFrom(s, found[emoteIdx..], stringIdx) == EmitFrom(s, found, 0)
    {
      var part := Substring(s, stringIdx, found[emoteIdx].start);
      ghost var before := parts;
      parts := PushText(parts, part);
      parts := parts + [EmotePart(found[emoteIdx].name, found[emoteIdx].url, found[emoteIdx].kind)];
      EmitTurn(s, found, emoteIdx, stringIdx, before, parts);
      emoteIdx := emoteIdx + 1;
      stringIdx := found[emoteIdx - 1].end;
    }
    var part := Substring(s, stringIdx, |s|);
    ghost var before := parts;
    parts := PushText(parts, part);
    EmitLast(s, found, stringIdx, before, parts);
  }

  /** The emote parts of a part list, in order. */
  function EmoteParts(parts: seq<Part>): (r: seq<Part>)
    ensures |r| <= |parts|
  {
    if parts == [] then []
    else (if parts[0].EmotePart? then [parts[0]] else []) + EmoteParts(parts[1..])
  }

  lemma {:induction false} EmotePartsAppend(a: seq<Part>, b: seq<Part>)
    ensures EmoteParts(a + b) == EmoteParts(a) + EmoteParts(b)
    decreases |a|
  {
    if a == [] {
      assert a + b == b;
    } else {
      var h := if a[0].EmotePart? then [a[0]] else [];
      assert (a + b)[0] == a[0] && (a + b)[1..] == a[1..] + b;
      assert EmoteParts(a + b) == h + EmoteParts(a[1..] + b);
      EmotePartsAppend(a[1..], b);
      assert EmoteParts(a) == h + EmoteParts(a[1..]);
      assert h + (EmoteParts(a[1..]) + EmoteParts(b)) == (h + EmoteParts(a[1..])) + EmoteParts(b);
    }
  }

  /** The parts of the matches, one each, in order. */
  function PartsOf(found: seq<Match>): (r: seq<Part>)
    ensures |r| == |found|
    ensures forall k :: 0 <= k < |found| ==> r[k] == EmoteOf(found[k])
  {
    seq(|found|, k requires 0 <= k < |found| => EmoteOf(found[k]))
  }

  /** A turn's text part contributes no emote part; its emote part heads the rest. */
  lemma EmotePartsTurn(t: seq<Part>, e: Part, rest: seq<Part>)
    requires t == [] || (|t| == 1 && t[0].TextPart?)
    requires e.EmotePart?
    ensures EmoteParts(t + [e] + rest) == [e] + EmoteParts(rest)
  {
    EmotePartsAppend(t + [e], rest);
    EmotePartsAppend(t, [e]);
    assert EmoteParts(t) == [];
    assert EmoteParts([e]) == [e];
  }

  lemma PartsOfCons(found: seq<Match>)
    requires found != []
    ensures PartsOf(found) == [EmoteOf(found[0])] + PartsOf(found[1..])
  {
  }

  /** The result has exactly one emote part per match, in the matches' order, carrying its fields. */
  lemma {:induction false} EmitEmoteParts(s: string, found: seq<Match>, cursor: nat)
    ensures EmoteParts(EmitFrom(s, found, cursor)) == PartsOf(found)
    decreases |found|
  {
    if found == [] {
      assert EmoteParts(TextIfAny(Substring(s, cursor, |s|))) == [];
    } else {
      var t := TextIfAny(Substring(s, cursor, found[0].start));
      var rest := EmitFrom(s, found[1..], found[0].end);
      EmitFromStep(s, found, cursor);
      EmitEmoteParts(s, found[1..], found[0].end);
      EmotePartsTurn(t, EmoteOf(found[0]), rest);
      PartsOfCons(found);
    }
  }

  /** What a part list spells: text contents and emote names, in order. */
  function Flatten(parts: seq<Part>): string
  {
    if parts == [] then []
    else
      match parts[0]
      case TextPart(c) => c + Flatten(parts[1..])
      case EmotePart(name, _, _) => name + Flatten(parts[1..])
      case OtherPart(_) => Flatten(parts[1..])
  }

  lemma {:induction false} FlattenAppend(a: seq<Part>, b: seq<Part>)
    ensures Flatten(a + b) == Flatten(a) + Flatten(b)
    decreases |a|
  {
    if a == [] {
      assert a + b == b;
    } else {
      assert (a + b)[1..] == a[1..] + b;
      FlattenAppend(a[1..], b);
    }
  }

  /** Each match sits where its name occurs, and each starts at or after the previous one's end. */
  predicate NonOverlapping(s: string, found: seq<Match>)
  {
    && (forall m :: m in found ==> Placed(s, m))
    && (forall k :: 0 <= k < |found| - 1 ==> found[k].end <= found[k + 1].start)
  }

  /** A text part spells its text. */
  lemma FlattenText(t: string)
    ensures Flatten(TextIfAny(t)) == t
  {
  }

  /** What one turn of the loop spells: the text before the match, then its name. */
  lemma FlattenEmitStep(s: string, found: seq<Match>, cursor: nat)
    requires found != []
    ensures Flatten(EmitFrom(s, found, cursor))
      == Substring(s, cursor, found[0].start) + found[0].name + Flatten(EmitFrom(s, found[1..], found[0].end))
  {
    var t := TextIfAny(Substring(s, cursor, found[0].start));
    var e := EmoteOf(found[0]);
    var rest := EmitFrom(s, found[1..], found[0].end);
    assert EmitFrom(s, found, cursor) == t + [e] + rest;
    FlattenAppend(t + [e], rest);
    FlattenAppend(t, [e]);
    FlattenText(Substring(s, cursor, found[0].start));
    assert Flatten([e]) == found[0].name;
  }

  /** A suffix of a string is its slices at two later cut points, joined. */
  lemma SliceSplit(s: string, i: nat, j: nat, k: nat)
    requires i <= j <= k <= |s|
    ensures s[i..] == s[i..j] + s[j..k] + s[k..]
  {
  }

  /** The first match of a non-overlapping list is placed, and the rest is non-overlapping and starts after it. */
  lemma NonOverlappingTail(s: string, found: seq<Match>)
    requires found != [] && NonOverlapping(s, found)
    ensures Placed(s, found[0]) && NonOverlapping(s, found[1..])
    ensures found[1..] != [] ==> found[0].end <= found[1..][0].start
  {
    assert found[0] in found;
    assert forall x :: x in found[1..] ==> x in found;
    if |found| > 1 {
      assert found[1..][0] == found[1];
    }
  }

  /** With non-overlapping matches the parts spell the message from the cursor on. */
  lemma {:induction false} EmitLossless(s: string, found: seq<Match>, cursor: nat)
    requires cursor <= |s|
    requires NonOverlapping(s, found)
    requires found != [] ==> cursor <= found[0].start
    ensures Flatten(EmitFrom(s, found, cursor)) == s[cursor..]
    decreases |found|
  {
    if found == [] {
      FlattenText(s[cursor..]);
    } else {
      var m := found[0];
      NonOverlappingTail(s, found);
      EmitLossless(s, found[1..], m.end);
      FlattenEmitStep(s, found, cursor);
      SliceSplit(s, cursor, m.start, m.end);
    }
  }

  /** The store after the learning loop for channel `ch`. */
  function LearnedAssets(assets: Assets, message: string, inline: seq<InlineEmote>, ch: string): (a: Assets)
    requires ch in assets && WellFormedInline(inline)
    ensures a.Keys == assets.Keys && Evolves(assets, a)
    ensures forall k :: k in assets && k != ch ==> a[k] == assets[k]
    ensures forall k :: k in assets ==> a[k].badges == assets[k].badges && a[k].loaded == assets[k].loaded
  {
    var scope := assets[ch].(emotes := Learned(assets[ch].emotes, message, inline));
    EvolvesUpdate(assets, ch, scope);
    assets[ch := scope]
  }

  /** The emotes tried against a message: the channel's own list followed by the global list. */
  function Candidates(a: Assets, ch: string): (r: seq<Emote>)
    requires ch in a && Global in a
    ensures |r| == |a[ch].emotes| + |a[Global].emotes|
    ensures r[..|a[ch].emotes|] == a[ch].emotes && r[|a[ch].emotes|..] == a[Global].emotes
  {
    a[ch].emotes + a[Global].emotes
  }

  /**
   * What a call needs: when the channel is loaded, every inline entry has a
   * position and every name matched after learning is a literal pattern.
   */
  predicate CanSegment(assets: Assets, message: string, inline: seq<InlineEmote>, channel: string)
    requires Global in assets
  {
    var ch := StripHash(channel);
    ch in assets ==>
      WellFormedInline(inline) && AllLiteral(Candidates(LearnedAssets(assets, message, inline, ch), ch))
  }

  /** The sorted `found` list for channel `ch` in store `a`. */
  function SortedMatches(a: Assets, message: string, ch: string): (r: seq<Match>)
    requires ch in a && Global in a && AllLiteral(Candidates(a, ch))
    ensures forall m :: m in r ==> Placed(message, m)
  {
    var all := AllMatches(message, Candidates(a, ch));
    var r := SortByStart(all);
    assert forall m :: m in r ==> m in multiset(all);
    r
  }

  /**
   * `handleEmotes(message, tags, channel)`: the new store and the parts.
   * An unknown channel gives the whole message as one text part and changes
   * nothing; otherwise only the channel's emote list changes, by learning.
   */
  function Handle(assets: Assets, message: string, inline: seq<InlineEmote>, channel: string): (r: (Assets, seq<Part>))
    requires Global in assets
    requires CanSegment(assets, message, inline, channel)
    ensures StripHash(channel) !in assets ==> r == (assets, [TextPart(message)])
    ensures r.0.Keys == assets.Keys && Evolves(assets, r.0)
    ensures forall k :: k in assets && k != StripHash(channel) ==> r.0[k] == assets[k]
    ensures forall k :: k in assets ==> r.0[k].badges == assets[k].badges && r.0[k].loaded == assets[k].loaded
  {
    var ch := StripHash(channel);
    if ch !in assets then (assets, [TextPart(message)])
    else
      var a := LearnedAssets(assets, message, inline, ch);
      (a, EmitFrom(message, SortedMatches(a, message, ch), 0))
  }

  /**
   * For a loaded channel the parts hold one emote part per sorted match, in
   * order, no empty text part and nothing but text and emote parts.
   */
  lemma HandleParts(assets: Assets, message: string, inline: seq<InlineEmote>, channel: string)
    requires Global in assets && CanSegment(assets, message, inline, channel)
    requires StripHash(channel) in assets
    ensures var a := LearnedAssets(assets, message, inline, StripHash(channel));
      var parts := Handle(assets, message, inline, channel).1;
      && EmoteParts(parts) == PartsOf(SortedMatches(a, message, StripHash(channel)))
      && Tidy(parts)
  {
    var ch := StripHash(channel);
    var a := LearnedAssets(assets, message, inline, ch);
    EmitEmoteParts(message, SortedMatches(a, message, ch), 0);
    EmitTidy(message, SortedMatches(a, message, ch), 0);
  }

  /** When the sorted matches do not overlap, the parts spell the message exactly. */
  lemma HandleLossless(assets: Assets, message: string, inline: seq<InlineEmote>, channel: string)
    requires Global in assets && CanSegment(assets, message, inline, channel)
    requires var ch := StripHash(channel);
      ch in assets ==>
        var found := SortedMatches(LearnedAssets(assets, message, inline, ch), message, ch);
        forall k :: 0 <= k < |found| - 1 ==> found[k].end <= found[k + 1].start
    ensures Flatten(Handle(assets, message, inline, channel).1) == message
  {
    var ch := StripHash(channel);
    if ch in assets {
      var found := SortedMatches(LearnedAssets(assets, message, inline, ch), message, ch);
      EmitLossless(message, found, 0);
      assert message[0..] == message;
    } else {
      assert Flatten([TextPart(message)]) == message;
    }
  }

  /** The store of the example "Hello Kappa Kappa": channel "c" with one FFZ emote "Kappa". */
  const ExampleEmote: Emote := Emote("Kappa", FfzCdn(25), Ffz, NumericId(25))
  const ExampleAssets: Assets :=
    InitialAssets()["c" := Scope(Some("c"), Some("1"), [ExampleEmote], map[], NothingLoaded)]

  /** Scan positions whose characters differ from the name's first one are no matches. */
  lemma {:induction false} OccurrencesSkip(s: string, name: string, from: nat, to: nat)
    requires IsLiteral(name) && 0 < |name| && from <= to && to + |name| <= |s|
    requires forall i :: from <= i < to ==> s[i] != name[0]
    ensures Occurrences(s, name, from) == Occurrences(s, name, to)
    decreases (to as int) - (from as int)
  {
    if from < to {
      assert s[from..from + |name|][0] == s[from];
      OccurrencesSkip(s, name, from + 1, to);
    }
  }

  /** Both whole-word occurrences of "Kappa" in "Hello Kappa Kappa" are found, at 6 and 12. */
  lemma ExampleOccurrences(s: string, name: string)
    requires s == "Hello Kappa Kappa" && name == "Kappa"
    ensures IsLiteral(name) && Occurrences(s, name, 0) == [6, 12]
  {
    assert IsLiteral(name);
    assert Occurrences(s, name, 17) == [];
    assert s[12..17] == name;
    assert MatchesAt(s, name, 12);
    assert Occurrences(s, name, 12) == [12];
    OccurrencesSkip(s, name, 11, 12);
    assert s[6..11] == name;
    assert MatchesAt(s, name, 6);
    assert Occurrences(s, name, 6) == [6, 12];
    OccurrencesSkip(s, name, 0, 6);
  }

  /** The example's sorted matches: "Kappa" at [6, 11) and at [12, 17). */
  lemma ExampleMatches(a: Assets, s: string)
    requires a == ExampleAssets && s == "Hello Kappa Kappa"
    ensures Global in a && "c" in a && AllLiteral(Candidates(a, "c"))
    ensures SortedMatches(a, s, "c")
      == [Match("Kappa", FfzCdn(25), Ffz, 6, 11), Match("Kappa", FfzCdn(25), Ffz, 12, 17)]
  {
    var es := Candidates(a, "c");
    assert es == [ExampleEmote];
    ExampleAllMatches(s, es);
    SortTwo(Match("Kappa", FfzCdn(25), Ffz, 6, 11), Match("Kappa", FfzCdn(25), Ffz, 12, 17));
  }

  lemma ExampleAllMatches(s: string, es: seq<Emote>)
    requires s == "Hello Kappa Kappa" && es == [ExampleEmote]
    ensures AllLiteral(es)
    ensures AllMatches(s, es) == [Match("Kappa", FfzCdn(25), Ffz, 6, 11), Match("Kappa", FfzCdn(25), Ffz, 12, 17)]
  {
    ExampleOccurrences(s, "Kappa");
    assert es[..0] == [];
    assert AllMatches(s, es) == MatchesFor(s, ExampleEmote);
  }

  /** Two matches already in start order stay as they are. */
  lemma SortTwo(m1: Match, m2: Match)
    requires m1.start <= m2.start
    ensures SortByStart([m1, m2]) == [m1, m2]
  {
    assert [m1, m2][1..] == [m2];
    assert [m2][1..] == [];
    assert SortByStart([m2]) == [m2];
  }

  /** The example's emission: text before each match, the emote, and no empty text. */
  lemma ExampleEmit(s: string, m1: Match, m2: Match)
    requires s == "Hello Kappa Kappa"
    requires m1 == Match("Kappa", FfzCdn(25), Ffz, 6, 11) && m2 == Match("Kappa", FfzCdn(25), Ffz, 12, 17)
    ensures EmitFrom(s, [m1, m2], 0) == [TextPart("Hello "), EmoteOf(m1), TextPart(" "), EmoteOf(m2)]
  {
    assert Substring(s, 0, 6) == "Hello ";
    assert Substring(s, 11, 12) == " ";
    assert Substring(s, 17, |s|) == [];
    assert [m1, m2][1..] == [m2] && [m2][1..] == [];
    assert EmitFrom(s, [], 17) == [];
    assert EmitFrom(s, [m2], 11) == [TextPart(" "), EmoteOf(m2)];
  }

  /**
   * "Hello Kappa Kappa" with no inline emotes, in a channel that lists
   * "Kappa": text "Hello ", the emote, text " ", the emote; the store is unchanged.
   */
  lemma ExampleSegmentation(a: Assets, s: string)
    requires a == ExampleAssets && s == "Hello Kappa Kappa"
    ensures Global in a && CanSegment(a, s, [], "c")
    ensures var e := EmotePart("Kappa", FfzCdn(25), Ffz);
      Handle(a, s, [], "c") == (a, [TextPart("Hello "), e, TextPart(" "), e])
  {
    var m1 := Match("Kappa", FfzCdn(25), Ffz, 6, 11);
    var m2 := Match("Kappa", FfzCdn(25), Ffz, 12, 17);
    assert StripHash("c") == "c";
    assert LearnedAssets(a, s, [], "c") == a;
    ExampleMatches(a, s);
    ExampleEmit(s, m1, m2);
  }

  // ---------------------------------------------------------------------------
  // Corrected counterparts of two behaviours of the code as written.

  /** Twitch's emote for "Kappa" (id 25) at characters 0-4. */
  const KappaInline: InlineEmote := InlineEmote("25", [Position(0, 4)])
  const KappaEmote: Emote := Emote("Kappa", TwitchCdn("25"), Twitch, NoId)

  /**
   * As written, the learning loop compares names with the id, so an emote
   * learned from one message is learned again from the next: two messages
   * with the same Twitch emote leave it in the list twice.
   */
  lemma TwitchEmoteRelearned()
    ensures Learned([], "Kappa", [KappaInline]) == [KappaEmote]
    ensures Learned([KappaEmote], "Kappa", [KappaInline]) == [KappaEmote, KappaEmote]
  {
    assert [KappaInline][..0] == [];
    assert Substring("Kappa", 0, 5) == "Kappa";
    assert !Known([], "25");
    assert !Known([KappaEmote], "25");
  }

  /** Twitch emote text the learning loop derives from an inline entry. */
  function DerivedName(message: string, ie: InlineEmote): string
    requires |ie.positions| > 0
  {
    TwitchEmote(message, ie).name
  }

  /** The intended turn of the loop: skip an emote whose derived name is already listed. */
  function LearnOneByName(emotes: seq<Emote>, message: string, ie: InlineEmote): (r: seq<Emote>)
    requires |ie.positions| > 0
    ensures r == emotes <==> Known(emotes, DerivedName(message, ie))
    ensures Known(r, DerivedName(message, ie))
  {
    var e := TwitchEmote(message, ie);
    if Known(emotes, e.name) then emotes
    else
      var r := emotes + [e];
      assert r[|emotes|].name == e.name;
      r
  }

  function LearnedByName(emotes: seq<Emote>, message: string, inline: seq<InlineEmote>): (r: seq<Emote>)
    requires WellFormedInline(inline)
    ensures emotes <= r
    decreases |inline|
  {
    if inline == [] then emotes
    else
      var init := inline[..|inline| - 1];
      assert forall i :: 0 <= i < |init| ==> init[i] == inline[i];
      LearnOneByName(LearnedByName(emotes, message, init), message, inline[|inline| - 1])
  }

  /** A name listed before stays listed in a longer list. */
  lemma KnownExtends(a: seq<Emote>, b: seq<Emote>, name: string)
    requires a <= b && Known(a, name)
    ensures Known(b, name)
  {
    var i :| 0 <= i < |a| && a[i].name == name;
    assert b[i] == a[i];
  }

  /** After learning, every entry's derived name is listed. */
  lemma {:induction false} LearnedByNameKnows(emotes: seq<Emote>, message: string, inline: seq<InlineEmote>)
    requires WellFormedInline(inline)
    ensures forall i :: 0 <= i < |inline| ==> Known(LearnedByName(emotes, message, inline), DerivedName(message, inline[i]))
    decreases |inline|
  {
    if inline != [] {
      var init := inline[..|inline| - 1];
      assert forall i :: 0 <= i < |init| ==> init[i] == inline[i];
      LearnedByNameKnows(emotes, message, init);
      var before := LearnedByName(emotes, message, init);
      var after := LearnedByName(emotes, message, inline);
      forall i | 0 <= i < |inline| ensures Known(after, DerivedName(message, inline[i])) {
        if i < |init| {
          assert Known(before, DerivedName(message, init[i]));
          KnownExtends(before, after, DerivedName(message, inline[i]));
        }
      }
    }
  }

  /** Learning entries whose derived names are all listed changes nothing. */
  lemma {:induction false} LearnedByNameKnown(emotes: seq<Emote>, message: string, inline: seq<InlineEmote>)
    requires WellFormedInline(inline)
    requires forall i :: 0 <= i < |inline| ==> Known(emotes, DerivedName(message, inline[i]))
    ensures LearnedByName(emotes, message, inline) == emotes
    decreases |inline|
  {
    if inline != [] {
      var init := inline[..|inline| - 1];
      assert forall i :: 0 <= i < |init| ==> init[i] == inline[i];
      LearnedByNameKnown(emotes, message, init);
    }
  }

  /** With the intended check, learning the same message's emotes a second time adds nothing. */
  lemma LearnedByNameIdempotent(emotes: seq<Emote>, message: string, inline: seq<InlineEmote>)
    requires WellFormedInline(inline)
    ensures var once := LearnedByName(emotes, message, inline);
      LearnedByName(once, message, inline) == once
  {
    LearnedByNameKnows(emotes, message, inline);
    LearnedByNameKnown(LearnedByName(emotes, message, inline), message, inline);
  }

  /**
   * As written, a match that starts before the cursor re-emits text: with two
   * emotes named "Kappa" (say one from FFZ and one from BTTV) the message
   * "Kappa" gives emote, text "Kappa", emote.
   */
  lemma DuplicateMatchRepeatsText(url1: string, url2: string)
    ensures var m1 := Match("Kappa", url1, Ffz, 0, 5);
      var m2 := Match("Kappa", url2, Bttv, 0, 5);
      EmitFrom("Kappa", [m1, m2], 0)
        == [EmotePart("Kappa", url1, Ffz), TextPart("Kappa"), EmotePart("Kappa", url2, Bttv)]
  {
    var m1 := Match("Kappa", url1, Ffz, 0, 5);
    var m2 := Match("Kappa", url2, Bttv, 0, 5);
    assert Substring("Kappa", 0, 0) == [];
    assert Substring("Kappa", 5, 0) == "Kappa";
    assert Substring("Kappa", 5, 5) == [];
    assert [m1, m2][1..] == [m2];
    assert [m2][1..] == [];
    assert EmitFrom("Kappa", [], 5) == [];
    assert EmitFrom("Kappa", [m2], 5) == [TextPart("Kappa"), EmotePart("Kappa", url2, Bttv)];
    assert EmitFrom("Kappa", [m1, m2], 0) == [EmotePart("Kappa", url1, Ffz)] + EmitFrom("Kappa", [m2], 5);
  }

  /** The intended emission: a match that starts before the cursor is skipped, so the first match wins. */
  function EmitGreedy(s: string, found: seq<Match>, cursor: nat): seq<Part>
    decreases |found|
  {
    if found == [] then TextIfAny(Substring(s, cursor, |s|))
    else if found[0].start < cursor then EmitGreedy(s, found[1..], cursor)
    else TextIfAny(Substring(s, cursor, found[0].start)) + [EmoteOf(found[0])] + EmitGreedy(s, found[1..], found[0].end)
  }

  /** What one accepted match of the greedy emission spells: the text before it, then its name. */
  lemma FlattenGreedyStep(s: string, found: seq<Match>, cursor: nat)
    requires found != [] && cursor <= found[0].start
    ensures Flatten(EmitGreedy(s, found, cursor))
      == Substring(s, cursor, found[0].start) + found[0].name + Flatten(EmitGreedy(s, found[1..], found[0].end))
  {
    var t := TextIfAny(Substring(s, cursor, found[0].start));
    var e := EmoteOf(found[0]);
    var rest := EmitGreedy(s, found[1..], found[0].end);
    assert EmitGreedy(s, found, cursor) == t + [e] + rest;
    FlattenAppend(t + [e], rest);
    FlattenAppend(t, [e]);
    FlattenText(Substring(s, cursor, found[0].start));
    assert Flatten([e]) == found[0].name;
  }

  /** The first of a list of placed matches is placed, and so are the rest. */
  lemma PlacedTail(s: string, found: seq<Match>)
    requires found != [] && forall m :: m in found ==> Placed(s, m)
    ensures Placed(s, found[0]) && forall m :: m in found[1..] ==> Placed(s, m)
  {
    assert found[0] in found;
    assert forall x :: x in found[1..] ==> x in found;
  }

  /** The greedy emission spells the message for any placed matches, overlapping or not. */
  lemma {:induction false} EmitGreedyLossless(s: string, found: seq<Match>, cursor: nat)
    requires cursor <= |s|
    requires forall m :: m in found ==> Placed(s, m)
    ensures Flatten(EmitGreedy(s, found, cursor)) == s[cursor..]
    decreases |found|
  {
    if found == [] {
      FlattenText(s[cursor..]);
    } else {
      var m := found[0];
      PlacedTail(s, found);
      if m.start < cursor {
        EmitGreedyLossless(s, found[1..], cursor);
      } else {
        EmitGreedyLossless(s, found[1..], m.end);
        FlattenGreedyStep(s, found, cursor);
        SliceSplit(s, cursor, m.start, m.end);
      }
    }
  }

  /** On matches that do not overlap, the correction emits exactly what the code does. */
  lemma {:induction false} EmitGreedyAgrees(s: string, found: seq<Match>, cursor: nat)
    requires forall k :: 0 <= k < |found| - 1 ==> found[k].end <= found[k + 1].start
    requires forall m :: m in found ==> m.start <= m.end
    requires found != [] ==> cursor <= found[0].start
    ensures EmitGreedy(s, found, cursor) == EmitFrom(s, found, cursor)
    decreases |found|
  {
    if found != [] {
      assert found[0] in found;
      assert forall x :: x in found[1..] ==> x in found;
      if |found| > 1 {
        assert found[1..][0] == found[1];
      }
      EmitGreedyAgrees(s, found[1..], found[0].end);
    }
  }
}
