/**
 * The catalog store of the emote engine: for the global scope and for every
 * joined channel, an ordered emote list, a badge map and per-provider
 * "loaded" flags (src/emotes.js, `loadedAssets`).
 */
module Catalog {
  import opened Wrappers

  /** Key of the global scope in the store. */
  const Global: string := "_global"

  /** The `type` field of an emote. */
  datatype EmoteType = Twitch | Ffz | Bttv

  /** The `id` field: absent for Twitch emotes, a number for FFZ, a string for BTTV. */
  datatype EmoteId = NoId | NumericId(n: nat) | TextId(s: string)

  datatype Emote = Emote(name: string, url: string, kind: EmoteType, id: EmoteId)

  datatype Badge = Badge(name: string, url: string)

  datatype Loaded = Loaded(badges: bool, bttv: bool, ffz: bool)

  /** One entry of the store; the global entry has no `channel` and no `uid`. */
  datatype Scope = Scope(
    channel: Option<string>,
    uid: Option<string>,
    emotes: seq<Emote>,
    badges: map<string, Badge>,
    loaded: Loaded)

  type Assets = map<string, Scope>

  const NothingLoaded: Loaded := Loaded(false, false, false)

  /** The store as the module starts: only the empty global scope. */
  function InitialAssets(): (a: Assets)
    ensures a.Keys == {Global}
    ensures a[Global].emotes == [] && a[Global].badges == map[] && a[Global].loaded == NothingLoaded
  {
    map[Global := Scope(None, None, [], map[], NothingLoaded)]
  }

  /** The empty struct `loadChannel` creates for a channel it has not seen. */
  function NewChannel(channel: string, uid: string): (s: Scope)
    ensures s.channel == Some(channel) && s.uid == Some(uid)
    ensures s.emotes == [] && s.badges == map[] && s.loaded == NothingLoaded
  {
    Scope(Some(channel), Some(uid), [], map[], NothingLoaded)
  }

  /** A template literal `${v}`: an absent value prints as "undefined". */
  function TemplateText(v: Option<string>): (r: string)
    ensures v.Some? ==> r == v.value
    ensures v.None? ==> r == "undefined"
  {
    match v
    case Some(s) => s
    case None => "undefined"
  }

  /** Decimal rendering of a non-negative number, as JavaScript prints it. */
  function Decimal(n: nat): (r: string)
    ensures |r| >= 1
    ensures forall i :: 0 <= i < |r| ==> '0' <= r[i] <= '9'
    ensures r[0] == '0' <==> n == 0
    ensures |r| > 1 ==> r[0] != '0'
  {
    var d := ['0' + (n % 10) as char];
    if n < 10 then d else Decimal(n / 10) + d
  }

  /** The number a string of decimal digits denotes. */
  function DigitsValue(r: string): int
    decreases |r|
  {
    if r == [] then 0 else 10 * DigitsValue(r[..|r| - 1]) + (r[|r| - 1] as int - '0' as int)
  }

  /** Reading back a rendered number gives the number. */
  lemma {:induction false} DecimalValue(n: nat)
    ensures DigitsValue(Decimal(n)) == n
  {
    var r := Decimal(n);
    assert r[|r| - 1] == '0' + (n % 10) as char;
    if n >= 10 {
      DecimalValue(n / 10);
      assert r[..|r| - 1] == Decimal(n / 10);
    }
  }

  function TwitchCdn(id: string): string
  {
    "https://static-cdn.jtvnw.net/emoticons/v2/" + id + "/default/dark/3.0"
  }

  function FfzCdn(id: nat): string
  {
    "https://cdn.frankerfacez.com/emoticon/" + Decimal(id) + "/1"
  }

  /** Distinct FFZ ids give distinct image URLs. */
  lemma FfzCdnInjective(a: nat, b: nat)
    requires FfzCdn(a) == FfzCdn(b)
    ensures a == b
  {
    var head := "https://cdn.frankerfacez.com/emoticon/";
    var u, v := FfzCdn(a), FfzCdn(b);
    assert u[|head|..|u| - 2] == Decimal(a);
    assert v[|head|..|v| - 2] == Decimal(b);
    DecimalValue(a);
    DecimalValue(b);
  }

  function BttvCdn(id: string): string
  {
    "https://cdn.betterttv.net/emote/" + id + "/3x"
  }

  /** Flags only ever go from false to true. */
  predicate FlagsGrow(before: Loaded, after: Loaded)
  {
    (before.badges ==> after.badges) && (before.bttv ==> after.bttv) && (before.ffz ==> after.ffz)
  }

  /**
   * How the store may evolve: entries are never removed, their channel and uid
   * never change, emote lists are only appended to and flags are never reset.
   */
  predicate Evolves(before: Assets, after: Assets)
  {
    forall k :: k in before ==> k in after && ScopeEvolves(before[k], after[k])
  }

  /** One scope's part of `Evolves`. */
  predicate ScopeEvolves(before: Scope, after: Scope)
  {
    && after.channel == before.channel
    && after.uid == before.uid
    && before.emotes <= after.emotes
    && FlagsGrow(before.loaded, after.loaded)
  }

  /** Replacing one scope by an evolution of it evolves the store. */
  lemma EvolvesUpdate(before: Assets, k: string, scope: Scope)
    requires k in before && ScopeEvolves(before[k], scope)
    ensures Evolves(before, before[k := scope])
  {
  }
}
