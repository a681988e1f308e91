/**
 * The catalog loader `loadChannel` / `loadEmotes` (src/emotes.js): which
 * requests a call issues, and how each provider's parsed response body
 * changes the store. The fetches themselves are outside the model; a body
 * arrives as a value.
 */
module Loader {
  import opened Wrappers
  import opened JsText
  import opened Catalog

  // ---------------------------------------------------------------------------
  // The request plan

  /** The `args` object: each option may be left out (`null`/`undefined`). */
  datatype LoadOptions = LoadOptions(ffz: Option<bool>, bttv: Option<bool>)

  /** Which optional providers are enabled once defaults are applied. */
  datatype Providers = Providers(ffz: bool, bttv: bool)

  /** Both providers default to enabled: only an explicit `false` disables one. */
  function WithDefaults(o: LoadOptions): (p: Providers)
    ensures p.ffz == (o.ffz != Some(false))
    ensures p.bttv == (o.bttv != Some(false))
  {
    Providers(o.ffz.None? || o.ffz.value, o.bttv.None? || o.bttv.value)
  }

  /** Creating the empty struct: only for a channel not yet in the store; an existing entry is kept as is. */
  function Prepared(assets: Assets, ch: string, uid: string): (a: Assets)
    ensures a.Keys == assets.Keys + {ch}
    ensures ch in assets ==> a == assets
    ensures ch !in assets ==> a[ch] == NewChannel(ch, uid)
    ensures forall k :: k in assets ==> a[k] == assets[k]
  {
    if ch in assets then assets else assets[ch := NewChannel(ch, uid)]
  }

  datatype Provider = FfzProvider | BttvProvider | BadgeProvider

  /** One fetch: the provider, the scope it loads (a channel name or "_global") and the URL. */
  datatype Request = Request(provider: Provider, context: string, url: string)

  /** The FFZ room is addressed by channel name. */
  function FfzApi(context: string): (url: string)
    ensures context == Global ==> url == "https://api.frankerfacez.com/v1/set/global"
    ensures context != Global ==> url == "https://api.frankerfacez.com/v1/room/" + context
  {
    "https://api.frankerfacez.com/v1/" + (if context == Global then "set/global" else "room/" + context)
  }

  /** BTTV is addressed by the stored uid. */
  function BttvApi(context: string, uid: Option<string>): (url: string)
    ensures context == Global ==> url == "https://api.betterttv.net/3/cached/emotes/global"
    ensures context != Global ==> url == "https://api.betterttv.net/3/cached/users/twitch/" + TemplateText(uid)
  {
    "https://api.betterttv.net/3/cached/" + (if context == Global then "emotes/global" else "users/twitch/" + TemplateText(uid))
  }

  /** Twitch badges are addressed by the stored uid. */
  function BadgeApi(context: string, uid: Option<string>): (url: string)
    ensures context == Global ==> url == "https://badges.twitch.tv/v1/badges/global/display"
    ensures context != Global ==> url == "https://badges.twitch.tv/v1/badges/channels/" + TemplateText(uid) + "/display"
  {
    "https://badges.twitch.tv/v1/badges/" + (if context == Global then "global" else "channels/" + TemplateText(uid)) + "/display"
  }

  predicate Requests(plan: seq<Request>, p: Provider)
  {
    exists i :: 0 <= i < |plan| && plan[i].provider == p
  }

  /**
   * A plan made of an optional FFZ request, an optional BTTV request and a
   * final badge request, in that order, asks a provider exactly when its
   * part is present.
   */
  lemma PlanShape(ffzOn: bool, bttvOn: bool, ffz: Request, bttv: Request, badges: Request)
    requires ffz.provider == FfzProvider && bttv.provider == BttvProvider && badges.provider == BadgeProvider
    ensures var r := (if ffzOn then [ffz] else []) + (if bttvOn then [bttv] else []) + [badges];
      && (Requests(r, FfzProvider) <==> ffzOn)
      && (Requests(r, BttvProvider) <==> bttvOn)
      && |r| == (if ffzOn then 1 else 0) + (if bttvOn then 1 else 0) + 1
      && r[|r| - 1] == badges
      && (ffzOn ==> r[0] == ffz)
      && (bttvOn ==> r[|r| - 2] == bttv)
      && forall i :: 0 <= i < |r| - 1 ==> r[i] == ffz || r[i] == bttv
  {
    var r := (if ffzOn then [ffz] else []) + (if bttvOn then [bttv] else []) + [badges];
    if ffzOn && bttvOn {
      assert r == [ffz, bttv, badges];
      assert r[0].provider == FfzProvider && r[1].provider == BttvProvider;
    } else if ffzOn {
      assert r == [ffz, badges];
      assert r[0].provider == FfzProvider;
    } else if bttvOn {
      assert r == [bttv, badges];
      assert r[0].provider == BttvProvider;
    } else {
      assert r == [badges];
    }
  }

  /**
   * `loadEmotes(context, args)`: an FFZ or BTTV request exactly when the
   * provider is enabled and not yet loaded for the scope, and a badge request
   * always, in the order FFZ, BTTV, badges.
   */
  function ScopePlan(context: string, scope: Scope, on: Providers): (r: seq<Request>)
    ensures Requests(r, FfzProvider) <==> on.ffz && !scope.loaded.ffz
    ensures Requests(r, BttvProvider) <==> on.bttv && !scope.loaded.bttv
    ensures |r| == (if on.ffz && !scope.loaded.ffz then 1 else 0) + (if on.bttv && !scope.loaded.bttv then 1 else 0) + 1
    ensures on.ffz && !scope.loaded.ffz ==> r[0] == Request(FfzProvider, context, FfzApi(context))
    ensures on.bttv && !scope.loaded.bttv ==> r[|r| - 2] == Request(BttvProvider, context, BttvApi(context, scope.uid))
    ensures |r| >= 1 && r[|r| - 1] == Request(BadgeProvider, context, BadgeApi(context, scope.uid))
    ensures forall i :: 0 <= i < |r| - 1 ==>
      r[i] == Request(FfzProvider, context, FfzApi(context)) || r[i] == Request(BttvProvider, context, BttvApi(context, scope.uid))
  {
    var ffz := Request(FfzProvider, context, FfzApi(context));
    var bttv := Request(BttvProvider, context, BttvApi(context, scope.uid));
    var badges := Request(BadgeProvider, context, BadgeApi(context, scope.uid));
    var ffzOn, bttvOn := on.ffz && !scope.loaded.ffz, on.bttv && !scope.loaded.bttv;
    PlanShape(ffzOn, bttvOn, ffz, bttv, badges);
    (if ffzOn then [ffz] else []) + (if bttvOn then [bttv] else []) + [badges]
  }

  /**
   * The synchronous part of `loadChannel(channel, uid, args)`: the store with
   * the channel's struct in place, and the requests for the channel, then
   * for the global scope.
   */
  function LoadPlan(assets: Assets, channel: string, uid: string, options: LoadOptions): (r: (Assets, seq<Request>))
    requires Global in assets
    ensures r.0 == Prepared(assets, StripHash(channel), uid)
    ensures StripHash(channel) in r.0 && Global in r.0
    ensures var ch, on := StripHash(channel), WithDefaults(options);
      r.1 == ScopePlan(ch, r.0[ch], on) + ScopePlan(Global, r.0[Global], on)
  {
    var ch := StripHash(channel);
    var a := Prepared(assets, ch, uid);
    var on := WithDefaults(options);
    (a, ScopePlan(ch, a[ch], on) + ScopePlan(Global, a[Global], on))
  }

  /**
   * Calling again once FFZ and BTTV are loaded for the channel and the global
   * scope issues only the two badge requests: badges are fetched on every call.
   */
  lemma LoadPlanWhenLoaded(assets: Assets, channel: string, uid: string, options: LoadOptions)
    requires Global in assets && StripHash(channel) in assets
    requires assets[StripHash(channel)].loaded.ffz && assets[StripHash(channel)].loaded.bttv
    requires assets[Global].loaded.ffz && assets[Global].loaded.bttv
    ensures var ch := StripHash(channel);
      LoadPlan(assets, channel, uid, options) == (assets, [
        Request(BadgeProvider, ch, BadgeApi(ch, assets[ch].uid)),
        Request(BadgeProvider, Global, BadgeApi(Global, assets[Global].uid))])
  {
    var ch := StripHash(channel);
    var on := WithDefaults(options);
    assert Prepared(assets, ch, uid) == assets;
    var here := ScopePlan(ch, assets[ch], on);
    var there := ScopePlan(Global, assets[Global], on);
    var first := Request(BadgeProvider, ch, BadgeApi(ch, assets[ch].uid));
    var second := Request(BadgeProvider, Global, BadgeApi(Global, assets[Global].uid));
    assert |here| == 1 && here[0] == first;
    assert |there| == 1 && there[0] == second;
    var r := LoadPlan(assets, channel, uid, options);
    assert r.0 == assets;
    assert r.1 == here + there;
    assert here + there == [first, second];
  }

  // ---------------------------------------------------------------------------
  // Normalising a parsed body

  /** What a provider's loop pushed before it finished or threw, and whether it finished. */
  datatype Outcome = Outcome(emotes: seq<Emote>, completed: bool)

  datatype FfzEmoticon = FfzEmoticon(id: nat, name: string)

  /** One value of `body.sets`; `emoticons` is None when missing, and iterating it then throws. */
  datatype FfzSet = FfzSet(emoticons: Option<seq<FfzEmoticon>>)

  /**
   * The parsed FFZ body: `null` (reading `sets` throws), or an object whose
   * `sets` may be missing (the `for...in` then runs zero times).
   */
  datatype FfzBody = FfzNull | FfzObject(sets: Option<seq<FfzSet>>)

  function FfzEmote(e: FfzEmoticon): Emote
  {
    Emote(e.name, FfzCdn(e.id), Ffz, NumericId(e.id))
  }

  function FfzEmotes(es: seq<FfzEmoticon>): (r: seq<Emote>)
    ensures |r| == |es|
    ensures forall i :: 0 <= i < |es| ==> r[i] == FfzEmote(es[i])
  {
    seq(|es|, i requires 0 <= i < |es| => FfzEmote(es[i]))
  }

  /** The emoticons of the sets, in order, up to the first set without a list. */
  function EmoticonsUpToFailure(sets: seq<FfzSet>): seq<FfzEmoticon>
  {
    if sets == [] then []
    else match sets[0].emoticons
      case None => []
      case Some(es) => es + EmoticonsUpToFailure(sets[1..])
  }

  /** The nested loop over `body.sets` and their `emoticons`. */
  function FfzSets(sets: seq<FfzSet>): (o: Outcome)
    ensures o.completed <==> forall i :: 0 <= i < |sets| ==> sets[i].emoticons.Some?
    ensures o.emotes == FfzEmotes(EmoticonsUpToFailure(sets))
  {
    if sets == [] then Outcome([], true)
    else match sets[0].emoticons
      case None => Outcome([], false)
      case Some(es) =>
        var rest := FfzSets(sets[1..]);
        assert forall i :: 1 <= i < |sets| ==> sets[i] == sets[1..][i - 1];
        Outcome(FfzEmotes(es) + rest.emotes, rest.completed)
  }

  /**
   * The FFZ handler: one `ffz` emote per emoticon across the sets, in order,
   * with URL `https://cdn.frankerfacez.com/emoticon/<id>/1`; it completes
   * unless the body is null or a set has no emoticon list.
   */
  function FfzNormalise(body: FfzBody): (o: Outcome)
    ensures o.completed <==> body.FfzObject? && (body.sets.Some? ==> forall i :: 0 <= i < |body.sets.value| ==> body.sets.value[i].emoticons.Some?)
    ensures forall i :: 0 <= i < |o.emotes| ==> o.emotes[i].kind == Ffz
    ensures body.FfzObject? && body.sets.Some? ==> o.emotes == FfzEmotes(EmoticonsUpToFailure(body.sets.value))
    ensures !(body.FfzObject? && body.sets.Some?) ==> o.emotes == []
  {
    match body
    case FfzNull => Outcome([], false)
    case FfzObject(None) => Outcome([], true)
    case FfzObject(Some(sets)) => FfzSets(sets)
  }

  datatype BttvEmote = BttvEmote(id: string, code: string)

  /**
   * The parsed BTTV body, as each scope reads it: the body itself as a list
   * (global), or its `channelEmotes` and `sharedEmotes` lists (channel).
   * None stands for a value that is missing, so the loop throws.
   */
  datatype BttvBody = BttvBody(
    asList: Option<seq<BttvEmote>>,
    channelEmotes: Option<seq<BttvEmote>>,
    sharedEmotes: Option<seq<BttvEmote>>)

  function BttvEmotes(es: seq<BttvEmote>): (r: seq<Emote>)
    ensures |r| == |es|
    ensures forall i :: 0 <= i < |es| ==> r[i] == Emote(es[i].code, BttvCdn(es[i].id), Bttv, TextId(es[i].id))
  {
    seq(|es|, i requires 0 <= i < |es| => Emote(es[i].code, BttvCdn(es[i].id), Bttv, TextId(es[i].id)))
  }

  /**
   * The BTTV handler. A channel body with `channelEmotes` but no
   * `sharedEmotes` pushes the channel emotes and then throws, on the
   * `undefined` that `concat` appended.
   */
  function BttvNormalise(global: bool, body: BttvBody): (o: Outcome)
    ensures global ==> o.completed == body.asList.Some?
    ensures !global ==> o.completed == (body.channelEmotes.Some? && body.sharedEmotes.Some?)
    ensures forall i :: 0 <= i < |o.emotes| ==> o.emotes[i].kind == Bttv
    ensures global && body.asList.Some? ==> o.emotes == BttvEmotes(body.asList.value)
    ensures !global && body.channelEmotes.Some? && body.sharedEmotes.Some? ==>
      o.emotes == BttvEmotes(body.channelEmotes.value) + BttvEmotes(body.sharedEmotes.value)
    ensures !global && body.channelEmotes.Some? && body.sharedEmotes.None? ==>
      o.emotes == BttvEmotes(body.channelEmotes.value)
    ensures (if global then body.asList.None? else body.channelEmotes.None?) ==> o.emotes == []
  {
    if global then
      match body.asList
      case None => Outcome([], false)
      case Some(l) => Outcome(BttvEmotes(l), true)
    else
      match body.channelEmotes
      case None => Outcome([], false)
      case Some(c) =>
        match body.sharedEmotes
        case None => Outcome(BttvEmotes(c), false)
        case Some(s) => Outcome(BttvEmotes(c + s), true)
  }

  /** One version of a badge set: `null` (reading `image_url_4x` throws) or its 4x image. */
  datatype BadgeVersion = NullVersion(version: string) | BadgeImage(version: string, imageUrl4x: string)

  /** One badge set: `null` (reading `versions` throws) or an object whose `versions` may be missing. */
  datatype BadgeSet = NullSet(setName: string) | BadgeSetObject(setName: string, versions: Option<seq<BadgeVersion>>)

  datatype BadgeBody = BadgesNull | BadgesObject(badgeSets: Option<seq<BadgeSet>>)

  /** The writes `badges[key] = value` the loop made before it finished or threw. */
  datatype BadgeOutcome = BadgeOutcome(writes: seq<(string, Badge)>, completed: bool)

  /** Every write stores a badge named by its own key `set/version`. */
  predicate NamedByKey(writes: seq<(string, Badge)>)
  {
    forall i :: 0 <= i < |writes| ==> writes[i].1.name == writes[i].0
  }

  predicate VersionOk(v: BadgeVersion) { v.BadgeImage? }

  predicate VersionsOk(versions: seq<BadgeVersion>)
  {
    forall j :: 0 <= j < |versions| ==> VersionOk(versions[j])
  }

  predicate SetOk(s: BadgeSet)
  {
    s.BadgeSetObject? && (s.versions.Some? ==> VersionsOk(s.versions.value))
  }

  /** The versions of a set, in order, up to the first null one. */
  function VersionsUpToFailure(versions: seq<BadgeVersion>): (r: seq<BadgeVersion>)
    ensures |r| <= |versions|
    ensures forall j :: 0 <= j < |r| ==> r[j].BadgeImage?
  {
    if versions == [] || versions[0].NullVersion? then []
    else
      var rest := VersionsUpToFailure(versions[1..]);
      assert forall j :: 1 <= j < |rest| + 1 ==> ([versions[0]] + rest)[j] == rest[j - 1];
      [versions[0]] + rest
  }

  /** The write for one version of set `setName`: key `set/version`, named by that key, with the 4x image. */
  function KeyedWrite(setName: string, v: BadgeVersion): (string, Badge)
    requires v.BadgeImage?
  {
    (setName + "/" + v.version, Badge(setName + "/" + v.version, v.imageUrl4x))
  }

  function KeyedWrites(setName: string, images: seq<BadgeVersion>): (r: seq<(string, Badge)>)
    requires forall j :: 0 <= j < |images| ==> images[j].BadgeImage?
    ensures |r| == |images|
    ensures forall j :: 0 <= j < |images| ==> r[j] == KeyedWrite(setName, images[j])
  {
    seq(|images|, j requires 0 <= j < |images| => KeyedWrite(setName, images[j]))
  }

  /**
   * The writes of the sets, in order: a null set stops everything, a set
   * without `versions` adds nothing, and a set with a null version adds the
   * writes of its versions before that one and stops.
   */
  function WritesUpToFailure(sets: seq<BadgeSet>): seq<(string, Badge)>
  {
    if sets == [] then []
    else match sets[0]
      case NullSet(_) => []
      case BadgeSetObject(_, None) => WritesUpToFailure(sets[1..])
      case BadgeSetObject(name, Some(vs)) =>
        KeyedWrites(name, VersionsUpToFailure(vs)) + (if VersionsOk(vs) then WritesUpToFailure(sets[1..]) else [])
  }

  lemma KeyedWritesCons(setName: string, v: BadgeVersion, images: seq<BadgeVersion>)
    requires v.BadgeImage? && forall j :: 0 <= j < |images| ==> images[j].BadgeImage?
    ensures forall j :: 0 <= j < |[v] + images| ==> ([v] + images)[j].BadgeImage?
    ensures KeyedWrites(setName, [v] + images) == [KeyedWrite(setName, v)] + KeyedWrites(setName, images)
  {
    var l, r := KeyedWrites(setName, [v] + images), [KeyedWrite(setName, v)] + KeyedWrites(setName, images);
    forall j | 0 <= j < |l| ensures l[j] == r[j] {
      if j > 0 { assert ([v] + images)[j] == images[j - 1]; }
    }
  }

  /** Unfolding the inner loop one version at a time. */
  lemma VersionsStep(versions: seq<BadgeVersion>)
    requires versions != [] && versions[0].BadgeImage?
    ensures VersionsUpToFailure(versions) == [versions[0]] + VersionsUpToFailure(versions[1..])
    ensures VersionsOk(versions) == VersionsOk(versions[1..])
  {
    assert forall j :: 1 <= j < |versions| ==> versions[j] == versions[1..][j - 1];
  }

  /** The inner loop over one set's versions. */
  function VersionWrites(setName: string, versions: seq<BadgeVersion>): (o: BadgeOutcome)
    ensures o.completed <==> VersionsOk(versions)
    ensures o.writes == KeyedWrites(setName, VersionsUpToFailure(versions))
    ensures NamedByKey(o.writes)
  {
    if versions == [] then BadgeOutcome([], true)
    else match versions[0]
      case NullVersion(_) => BadgeOutcome([], false)
      case BadgeImage(v, url) =>
        var key := setName + "/" + v;
        var rest := VersionWrites(setName, versions[1..]);
        VersionsStep(versions);
        KeyedWritesCons(setName, versions[0], VersionsUpToFailure(versions[1..]));
        BadgeOutcome([(key, Badge(key, url))] + rest.writes, rest.completed)
  }

  /** The outer loop over `badge_sets`. */
  function SetWrites(sets: seq<BadgeSet>): (o: BadgeOutcome)
    ensures o.completed <==> forall i :: 0 <= i < |sets| ==> SetOk(sets[i])
    ensures o.writes == WritesUpToFailure(sets)
    ensures NamedByKey(o.writes)
  {
    if sets == [] then BadgeOutcome([], true)
    else
      var rest := SetWrites(sets[1..]);
      assert forall i :: 1 <= i < |sets| ==> sets[i] == sets[1..][i - 1];
      match sets[0]
      case NullSet(_) => BadgeOutcome([], false)
      case BadgeSetObject(_, None) => rest
      case BadgeSetObject(name, Some(vs)) =>
        var here := VersionWrites(name, vs);
        if !here.completed then
          assert here.writes + [] == here.writes;
          here
        else
          BadgeOutcome(here.writes + rest.writes, rest.completed)
  }

  /**
   * The badge handler: key `set/version` gets `{name: key, url: image_url_4x}`;
   * it completes unless the body, a set or a version is null.
   */
  function BadgeNormalise(body: BadgeBody): (o: BadgeOutcome)
    ensures o.completed <==> body.BadgesObject? && (body.badgeSets.Some? ==> forall i :: 0 <= i < |body.badgeSets.value| ==> SetOk(body.badgeSets.value[i]))
    ensures body.BadgesObject? && body.badgeSets.Some? ==> o.writes == WritesUpToFailure(body.badgeSets.value)
    ensures !(body.BadgesObject? && body.badgeSets.Some?) ==> o.writes == []
    ensures NamedByKey(o.writes)
  {
    match body
    case BadgesNull => BadgeOutcome([], false)
    case BadgesObject(None) => BadgeOutcome([], true)
    case BadgesObject(Some(sets)) => SetWrites(sets)
  }

  /** The value the last write with key `k` stored, if any. */
  function LastWrite(writes: seq<(string, Badge)>, k: string): Option<Badge>
  {
    if writes == [] then None
    else if writes[|writes| - 1].0 == k then Some(writes[|writes| - 1].1)
    else LastWrite(writes[..|writes| - 1], k)
  }

  function Keys(writes: seq<(string, Badge)>): set<string>
  {
    set i | 0 <= i < |writes| :: writes[i].0
  }

  /**
   * The writes applied in order, later ones overwriting: the map gains the
   * written keys, and each written key holds the value of its last write.
   */
  function Overwrite(badges: map<string, Badge>, writes: seq<(string, Badge)>): (r: map<string, Badge>)
    ensures r.Keys == badges.Keys + Keys(writes)
    ensures forall k :: k in Keys(writes) ==> LastWrite(writes, k).Some? && r[k] == LastWrite(writes, k).value
    ensures forall k :: k in badges && k !in Keys(writes) ==> r[k] == badges[k]
    decreases |writes|
  {
    if writes == [] then badges
    else
      var init := writes[..|writes| - 1];
      var last := writes[|writes| - 1];
      assert Keys(writes) == Keys(init) + {last.0} by {
        assert forall i :: 0 <= i < |init| ==> init[i] == writes[i];
      }
      Overwrite(badges, init)[last.0 := last.1]
  }

  // ---------------------------------------------------------------------------
  // Applying an outcome to one scope

  function Flag(l: Loaded, p: Provider): bool
  {
    match p
    case FfzProvider => l.ffz
    case BttvProvider => l.bttv
    case BadgeProvider => l.badges
  }

  /** Only the provider's own flag may change, and it becomes true exactly when the loop completed. */
  predicate FlagSettled(before: Loaded, after: Loaded, p: Provider, completed: bool)
  {
    forall q :: Flag(after, q) == if q == p then Flag(before, q) || completed else Flag(before, q)
  }

  /** The flags after provider `p`'s handler ran: its flag set if the loop completed. */
  function Settled(l: Loaded, p: Provider, completed: bool): (r: Loaded)
    ensures FlagSettled(l, r, p, completed)
  {
    var r := if !completed then l
      else match p
        case FfzProvider => l.(ffz := true)
        case BttvProvider => l.(bttv := true)
        case BadgeProvider => l.(badges := true);
    FlagsOf(l, r, p, completed);
    r
  }

  lemma FlagsOf(l: Loaded, r: Loaded, p: Provider, completed: bool)
    requires r == if !completed then l
      else match p
        case FfzProvider => l.(ffz := true)
        case BttvProvider => l.(bttv := true)
        case BadgeProvider => l.(badges := true)
    ensures FlagSettled(l, r, p, completed)
  {
    forall q ensures Flag(r, q) == if q == p then Flag(l, q) || completed else Flag(l, q) {
      match q
      case FfzProvider =>
      case BttvProvider =>
      case BadgeProvider =>
    }
  }

  /**
   * An FFZ or BTTV handler's effect on its scope: the pushed emotes are
   * appended (they stay even when the loop threw) and the flag is set only
   * when the loop completed. Badges, channel and uid are untouched.
   */
  function SettleEmotes(scope: Scope, p: Provider, o: Outcome): (r: Scope)
    requires p != BadgeProvider
    ensures r.emotes == scope.emotes + o.emotes
    ensures FlagSettled(scope.loaded, r.loaded, p, o.completed)
    ensures r.badges == scope.badges && r.channel == scope.channel && r.uid == scope.uid
  {
    scope.(emotes := scope.emotes + o.emotes, loaded := Settled(scope.loaded, p, o.completed))
  }

  /** The badge handler's effect: the writes are applied and the badge flag set only on completion. */
  function SettleBadges(scope: Scope, o: BadgeOutcome): (r: Scope)
    ensures r.badges == Overwrite(scope.badges, o.writes)
    ensures FlagSettled(scope.loaded, r.loaded, BadgeProvider, o.completed)
    ensures r.emotes == scope.emotes && r.channel == scope.channel && r.uid == scope.uid
  {
    scope.(badges := Overwrite(scope.badges, o.writes), loaded := Settled(scope.loaded, BadgeProvider, o.completed))
  }

  /** A settled flag never goes back to false. */
  lemma SettledFlagsGrow(before: Loaded, after: Loaded, p: Provider, completed: bool)
    requires FlagSettled(before, after, p, completed)
    ensures FlagsGrow(before, after)
  {
    assert Flag(after, BadgeProvider) == (Flag(before, BadgeProvider) || (BadgeProvider == p && completed));
    assert Flag(after, BttvProvider) == (Flag(before, BttvProvider) || (BttvProvider == p && completed));
    assert Flag(after, FfzProvider) == (Flag(before, FfzProvider) || (FfzProvider == p && completed));
  }
}
