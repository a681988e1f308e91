/**
 * The module-level store `loadedAssets` of src/emotes.js and the operations
 * that change it in place: `loadChannel` (with the response handlers of
 * `loadEmotes`) and `handleEmotes`.
 */
module EmoteStore {
  import opened JsText
  import opened Catalog
  import opened Matching
  import opened Segmenter
  import opened Loader

  class Store {
    var assets: Assets

    ghost predicate Valid()
      reads this
    {
      Global in assets
    }

    /** The store as the module starts: an empty global scope with nothing loaded. */
    constructor ()
      ensures Valid() && assets == InitialAssets()
    {
      assets := InitialAssets();
    }

    /**
     * `loadChannel(channel, uid, args)` up to its `await`: strips one '#',
     * applies the defaults, creates the channel's struct if it has none, and
     * returns the fetches `loadEmotes` starts for the channel and for the
     * global scope. Their responses come back through the `Settle` methods.
     */
    method LoadChannel(channel: string, uid: string, options: LoadOptions) returns (plan: seq<Request>)
      requires Valid()
      modifies this
      ensures Valid() && Evolves(old(assets), assets)
      ensures (assets, plan) == LoadPlan(old(assets), channel, uid, options)
    {
      var ch := StripHash(channel);
      var on := WithDefaults(options);
      if ch !in assets {
        assets := assets[ch := NewChannel(ch, uid)];
      }
      plan := ScopePlan(ch, assets[ch], on) + ScopePlan(Global, assets[Global], on);
    }

    /** The FFZ response handler for scope `context`, given the parsed body. */
    method SettleFfz(context: string, body: FfzBody)
      requires Valid() && context in assets
      modifies this
      ensures Valid() && Evolves(old(assets), assets)
      ensures assets == old(assets)[context := SettleEmotes(old(assets)[context], FfzProvider, FfzNormalise(body))]
    {
      var scope := SettleEmotes(assets[context], FfzProvider, FfzNormalise(body));
      SettledFlagsGrow(assets[context].loaded, scope.loaded, FfzProvider, FfzNormalise(body).completed);
      EvolvesUpdate(assets, context, scope);
      assets := assets[context := scope];
    }

    /** The BTTV response handler; the global scope reads the body as a list. */
    method SettleBttv(context: string, body: BttvBody)
      requires Valid() && context in assets
      modifies this
      ensures Valid() && Evolves(old(assets), assets)
      ensures assets == old(assets)[context := SettleEmotes(old(assets)[context], BttvProvider, BttvNormalise(context == Global, body))]
    {
      var outcome := BttvNormalise(context == Global, body);
      var scope := SettleEmotes(assets[context], BttvProvider, outcome);
      SettledFlagsGrow(assets[context].loaded, scope.loaded, BttvProvider, outcome.completed);
      EvolvesUpdate(assets, context, scope);
      assets := assets[context := scope];
    }

    /** The Twitch badge response handler. */
    method SettleBadges(context: string, body: BadgeBody)
      requires Valid() && context in assets
      modifies this
      ensures Valid() && Evolves(old(assets), assets)
      ensures assets == old(assets)[context := Loader.SettleBadges(old(assets)[context], BadgeNormalise(body))]
    {
      var scope := Loader.SettleBadges(assets[context], BadgeNormalise(body));
      SettledFlagsGrow(assets[context].loaded, scope.loaded, BadgeProvider, BadgeNormalise(body).completed);
      EvolvesUpdate(assets, context, scope);
      assets := assets[context := scope];
    }

    /**
     * One turn of the loop over `tags.emotes`: the entry is skipped when an
     * emote is named like its id, otherwise the emote named by the text at its
     * first position is pushed.
     */
    static method LearnEntry(emotes: seq<Emote>, message: string, ie: InlineEmote) returns (r: seq<Emote>)
      requires |ie.positions| > 0
      ensures r == LearnOne(emotes, message, ie)
    {
      r := emotes;
      if !Known(emotes, ie.id) {
        var pos := ie.positions[0];
        r := r + [Emote(Substring(message, pos.start, pos.end + 1), TwitchCdn(ie.id), Twitch, NoId)];
      }
    }

    /**
     * The loop over `tags.emotes` in `handleEmotes`: each inline emote whose
     * id no emote of the channel is named after is appended to the channel's
     * list, named by the text at its first position.
     */
    method LearnInline(ch: string, message: string, inline: seq<InlineEmote>)
      requires Valid() && ch in assets && WellFormedInline(inline)
      modifies this
      ensures Valid() && assets == LearnedAssets(old(assets), message, inline, ch)
    {
      var emotes := assets[ch].emotes;
      ghost var emotes0 := emotes;
      var i := 0;
      while i < |inline|
        invariant 0 <= i <= |inline|
        invariant WellFormedInline(inline[..i])
        invariant emotes == Learned(emotes0, message, inline[..i])
        invariant assets == old(assets)
      {
        LearnedStep(emotes0, message, inline, i);
        emotes := LearnEntry(emotes, message, inline[i]);
        i := i + 1;
      }
      assets := assets[ch := assets[ch].(emotes := emotes)];
      assert inline[..|inline|] == inline;
    }

    /**
     * `handleEmotes(message, tags, channel)`: learns the inline Twitch emotes
     * into the channel's list, collects and sorts the matches, and emits the
     * parts.
     */
    method HandleEmotes(message: string, inline: seq<InlineEmote>, channel: string) returns (parts: seq<Part>)
      requires Valid() && CanSegment(assets, message, inline, channel)
      modifies this
      ensures Valid()
      ensures (assets, parts) == Handle(old(assets), message, inline, channel)
    {
      var ch := StripHash(channel);
      if ch !in assets {
        return [TextPart(message)];
      }
      LearnInline(ch, message, inline);
      var found := CollectMatches(message, assets[ch].emotes + assets[Global].emotes);
      found := SortByStart(found);
      parts := Emit(message, found);
    }
  }
}
