/** The badge resolver `getBadges` (src/emotes.js). */
module Badges {
  import opened Wrappers
  import opened JsText
  import opened Catalog

  /** A key resolves to the channel's badge, else to the global one, else to nothing. */
  function Lookup(channelBadges: map<string, Badge>, globalBadges: map<string, Badge>, key: string): (r: Option<Badge>)
    ensures key in channelBadges ==> r == Some(channelBadges[key])
    ensures key !in channelBadges && key in globalBadges ==> r == Some(globalBadges[key])
    ensures key !in channelBadges && key !in globalBadges ==> r == None
  {
    if key in channelBadges then Some(channelBadges[key])
    else if key in globalBadges then Some(globalBadges[key])
    else None
  }

  /** Each key looked up in turn, keeping only the keys that found a badge. */
  function Resolve(channelBadges: map<string, Badge>, globalBadges: map<string, Badge>, keys: seq<string>): (r: seq<Badge>)
    ensures |r| <= |keys|
    ensures forall b :: b in r ==> exists k :: k in keys && Lookup(channelBadges, globalBadges, k) == Some(b)
    decreases |keys|
  {
    if keys == [] then []
    else
      var rest := Resolve(channelBadges, globalBadges, keys[1..]);
      assert forall k :: k in keys[1..] ==> k in keys;
      match Lookup(channelBadges, globalBadges, keys[0])
      case Some(b) => [b] + rest
      case None => rest
  }

  /** Resolving keys one after another: the badges of the first keys come first. */
  lemma {:induction false} ResolveAppend(cb: map<string, Badge>, gb: map<string, Badge>, a: seq<string>, b: seq<string>)
    ensures Resolve(cb, gb, a + b) == Resolve(cb, gb, a) + Resolve(cb, gb, b)
    decreases |a|
  {
    if a == [] {
      assert a + b == b;
    } else {
      assert (a + b)[1..] == a[1..] + b;
      ResolveAppend(cb, gb, a[1..], b);
    }
  }

  /** A single key gives its channel badge, else its global badge, else is dropped. */
  lemma ResolveOne(cb: map<string, Badge>, gb: map<string, Badge>, key: string)
    ensures Resolve(cb, gb, [key]) ==
      if key in cb then [cb[key]] else if key in gb then [gb[key]] else []
  {
    assert [key][1..] == [];
  }

  /** When every key resolves, the i-th badge is the i-th key's. */
  lemma {:induction false} ResolveAll(cb: map<string, Badge>, gb: map<string, Badge>, keys: seq<string>)
    requires forall i :: 0 <= i < |keys| ==> Lookup(cb, gb, keys[i]).Some?
    ensures |Resolve(cb, gb, keys)| == |keys|
    ensures forall i :: 0 <= i < |keys| ==> Resolve(cb, gb, keys)[i] == Lookup(cb, gb, keys[i]).value
    decreases |keys|
  {
    if keys != [] {
      ResolveAll(cb, gb, keys[1..]);
      assert forall i :: 1 <= i < |keys| ==> keys[i] == keys[1..][i - 1];
    }
  }

  /** The comma-split keys of the raw badge tag; a missing tag gives none. */
  function BadgeKeys(badgesRaw: Option<string>): (r: seq<string>)
    ensures badgesRaw.None? ==> r == []
    ensures badgesRaw.Some? ==> |r| >= 1 && Join(r, ',') == badgesRaw.value
  {
    match badgesRaw
    case None => []
    case Some(raw) => JoinSplit(raw, ','); Split(raw, ',')
  }

  /**
   * `getBadges(tags, channel)`. It reads the channel's entry only when there
   * is a key to look up, so a missing tag needs no loaded channel; a tag for
   * a channel with no entry throws a TypeError, here `None`.
   */
  function GetBadges(assets: Assets, badgesRaw: Option<string>, channel: string): (r: Option<seq<Badge>>)
    requires Global in assets
    ensures r.None? <==> badgesRaw.Some? && StripHash(channel) !in assets
    ensures badgesRaw.None? ==> r == Some([])
    ensures r.Some? ==> |r.value| <= |BadgeKeys(badgesRaw)|
  {
    if badgesRaw.None? then Some([])
    else if StripHash(channel) !in assets then None
    else Some(Resolve(assets[StripHash(channel)].badges, assets[Global].badges, BadgeKeys(badgesRaw)))
  }

  /**
   * A tag listing comma-free keys `k1,k2,...` resolves key by key, in order:
   * each to the channel's badge, else the global one, else nothing.
   */
  lemma GetBadgesOfKeys(assets: Assets, keys: seq<string>, channel: string)
    requires Global in assets && StripHash(channel) in assets
    requires |keys| >= 1 && forall i :: 0 <= i < |keys| ==> ',' !in keys[i]
    ensures GetBadges(assets, Some(Join(keys, ',')), channel)
      == Some(Resolve(assets[StripHash(channel)].badges, assets[Global].badges, keys))
  {
    SplitJoin(keys, ',');
  }
}
