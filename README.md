# twitch-chatter: the emote engine and the chat line list, in Dafny

This project is a model of the logic in twitch-chatter, a Twitch chat overlay. It covers two files:

- `src/emotes.js`, the emote and badge engine. It keeps one mutable store, `loadedAssets`. For `_global` and for each joined channel, the store holds an ordered emote list, a badge map, the channel name and uid, and three "loaded" flags. Three pieces work on it:
  - `loadChannel` / `loadEmotes` plan the provider requests (FrankerFaceZ, BetterTTV, Twitch badges). They fold each parsed response body into the store.
  - `getBadges` resolves the comma-separated `badges-raw` tag against the channel's badges, then the global ones.
  - `handleEmotes` learns Twitch emotes from the message's inline positions, finds every `\b`-bounded occurrence of every emote name, sorts the matches stably by start, and cuts the message into text and emote parts.
- `src/index.js`, the `Chat` overlay. Its DOM container is abstracted as the sequence of chat lines it shows. `message` renders one line (badges, name, color, parts), appends it, and evicts the oldest line when the count exceeds `limit`.

Modules, one file each:

| file | module | models |
|---|---|---|
| `wrappers.dfy` | `Wrappers` | `Option` |
| `jstext.dfy` | `JsText` | JavaScript `substring`, `replace(/^#/, '')`, `split` / `join` |
| `catalog.dfy` | `Catalog` | the entities of the store, the CDN URLs, how the store may evolve |
| `matching.dfy` | `Matching` | `\b`-bounded literal matching, the `found` list, the stable sort |
| `segmenter.dfy` | `Segmenter` | `handleEmotes` as functions: learning, emission, and what they guarantee |
| `badges.dfy` | `Badges` | `getBadges` |
| `loader.dfy` | `Loader` | the request plan of `loadChannel` / `loadEmotes` and the response handlers as pure steps |
| `emotestore.dfy` | `EmoteStore` | class `Store`: `loadedAssets` and the imperative operations that change it |
| `chat.dfy` | `ChatOverlay` | class `Chat`: `limit`, the line list, `message` |

The imperative code is modelled imperatively:
- `Store` holds `assets: map<string, Scope>`.
- `LoadChannel`, the three `Settle` handlers and `HandleEmotes` are methods that update it.
- The learning loop, the nested matching loops and the `emoteIdx` / `stringIdx` emission loop are `while` loops, each proved against a function of `Segmenter` or `Matching`.
- `Chat.Message` renders the badges and parts with loops and updates `lines`.

The network is an input:
- `LoadChannel` returns the plan of requests.
- Whoever drives the store hands each parsed body to `SettleFfz`, `SettleBttv` or `SettleBadges`, in any order.

Where the code departs from what it evidently intends, the model follows the code:
- Badges are fetched on every `loadChannel` call, whatever `loaded.badges` says. So a second call on a fully loaded channel still plans two badge requests (`Loader.LoadPlanWhenLoaded`).
- Overlapping or duplicate matches are not skipped. JavaScript `substring` swaps its arguments and re-emits text (see Findings).
- The "already known" check compares emote names with the Twitch emote id, so a Twitch emote is learned again on every message (see Findings).
- `getBadges` for a badge tag on a channel with no store entry throws a `TypeError`. The model returns `None` for that case rather than excluding it, and `Chat.Message` then changes nothing.

The FFZ room is addressed by channel name; BTTV and badges are addressed by the stored uid (`Loader.FfzApi`, `Loader.BttvApi`, `Loader.BadgeApi`).

## Model

| member | source | states |
|---|---|---|
| JsText.Clamp | src/emotes.js:191 | a `substring` index is clamped into [0, length]: kept when in range, 0 below, the length above |
| JsText.Substring | src/emotes.js:191 | `substring(a, b)` is the slice between the clamped indices, the smaller first, for in-range and out-of-range arguments alike: `s[a..b]` or `s[b..a]` when both are in range, never longer than `s`, and empty exactly when the clamped indices coincide |
| JsText.StripHash | src/emotes.js:151 | exactly one leading `#` is removed: the result is the channel itself or the channel minus its first `#`, and the latter exactly when it starts with `#` |
| JsText.Split | src/emotes.js:146 | `split(',')` yields at least one piece and no piece contains the separator |
| JsText.SplitAtSeparator | src/emotes.js:146 | splitting `a + sep + b` splits `a` and `b` independently and concatenates the pieces |
| JsText.SplitNoSeparator | src/emotes.js:146 | a string without the separator splits into itself alone |
| JsText.JoinSplit | src/emotes.js:146 | joining the pieces of a split restores the string |
| JsText.SplitJoin | src/emotes.js:146 | splitting a join of separator-free pieces restores the pieces |
| Catalog.InitialAssets | src/emotes.js:4-14 | the store starts with only `_global`: no emotes, no badges, no flag set |
| Catalog.NewChannel | src/emotes.js:128-140 | a new channel entry carries the channel and uid, with empty lists and every flag false |
| Catalog.TemplateText | src/emotes.js:59 | a template slot prints the value it holds, and `undefined` for a missing value |
| Catalog.Decimal | src/emotes.js:37 | a number renders as a non-empty string of decimal digits with no leading zero; it starts with `0` exactly for 0 |
| Catalog.DecimalValue | src/emotes.js:37 | reading the rendered digits back gives the number |
| Catalog.FfzCdnInjective | src/emotes.js:37 | distinct FFZ ids give distinct image URLs |
| Loader.WithDefaults | src/emotes.js:124-125 | `?? true`: a provider is enabled unless its option is explicitly `false` |
| Loader.Prepared | src/emotes.js:128-140 | the channel's entry is created only when missing; an existing entry and every other entry are kept unchanged |
| Loader.FfzApi | src/emotes.js:29 | the FFZ URL is `.../v1/set/global` for `_global` and `.../v1/room/<channel>` otherwise |
| Loader.BttvApi | src/emotes.js:59 | the BTTV URL is `.../cached/emotes/global` for `_global` and `.../cached/users/twitch/<uid>` otherwise, `undefined` for a missing uid |
| Loader.BadgeApi | src/emotes.js:86 | the badge URL is `.../badges/global/display` for `_global` and `.../badges/channels/<uid>/display` otherwise |
| Loader.ScopePlan | src/emotes.js:22-110 | an FFZ request exactly when FFZ is enabled and not loaded for the scope, likewise for BTTV, and a badge request always; one to three requests, in the order FFZ, BTTV, badges, each with its URL (FFZ by name, BTTV and badges by uid) |
| Loader.LoadPlan | src/emotes.js:120-143 | `loadChannel` strips the `#`, prepares the entry, and plans the channel's requests followed by the global scope's, each as `ScopePlan` of the prepared entry with the defaulted options |
| Loader.LoadPlanWhenLoaded | src/emotes.js:120-143 | once FFZ and BTTV are loaded for the channel and globally, a call plans exactly the two badge requests and changes nothing |
| Loader.FfzEmotes | src/emotes.js:35-40 | one `ffz` emote per emoticon, in order, named by the emoticon, with URL `https://cdn.frankerfacez.com/emoticon/<id>/1` |
| Loader.FfzSets | src/emotes.js:33-42 | the sets' emoticons are pushed in order up to the first set without an emoticon list; the loop completes exactly when every set has one |
| Loader.FfzNormalise | src/emotes.js:31-51 | a null body throws at once; missing `sets` completes with nothing pushed; otherwise as the set loop; only `ffz` emotes are pushed |
| Loader.BttvEmotes | src/emotes.js:64-69 | one `bttv` emote per entry, in order, named by `code`, with URL `https://cdn.betterttv.net/emote/<id>/3x` |
| Loader.BttvNormalise | src/emotes.js:61-79 | global: the body as a list; channel: `channelEmotes` then `sharedEmotes`; a missing list throws; a channel body without `sharedEmotes` pushes the channel emotes and then throws |
| Loader.VersionWrites | src/emotes.js:91-96 | the writes are exactly, in order, `set/version` to `{name: set/version, url: image_url_4x}` for each version before the first null one (`VersionsUpToFailure`); completes exactly when no version is null |
| Loader.SetWrites | src/emotes.js:90-97 | the writes are exactly `WritesUpToFailure`: each set's version writes in order, nothing for a set without `versions`, nothing from a null set on, and nothing after a set with a null version; completes exactly when every set is well formed |
| Loader.BadgeNormalise | src/emotes.js:88-106 | a null body throws with no write, missing `badge_sets` completes with no write, otherwise the writes are the set loop's; every write stores a badge named by its key |
| Loader.Overwrite | src/emotes.js:92-95 | applying the writes in order: written keys are added, each holds its last write, and unwritten keys keep their badge |
| Loader.Settled | src/emotes.js:27-108 | only the provider's own flag can change, and it becomes true exactly when the loop completed |
| Loader.SettleEmotes | src/emotes.js:31-80 | the pushed emotes are appended even when the loop threw afterwards; only the provider's flag may change; badges, channel and uid are kept |
| Loader.SettleBadges | src/emotes.js:92-99 | the badge map is overwritten by the writes, emotes, channel and uid are kept, and only the badge flag may change |
| Loader.SettledFlagsGrow | src/emotes.js:27-108 | a settled flag never goes back to false |
| EmoteStore.Store.constructor | src/emotes.js:4-14 | the store begins as the initial store |
| EmoteStore.Store.LoadChannel | src/emotes.js:22-143 | updates the store and returns the plan exactly as `LoadPlan` gives them; the store only evolves |
| EmoteStore.Store.SettleFfz | src/emotes.js:31-51 | only the scope's entry changes, as `SettleEmotes` of the normalised FFZ body; the store only evolves (nothing removed, lists only appended to, flags never reset) |
| EmoteStore.Store.SettleBttv | src/emotes.js:61-79 | the same for the BTTV body, read as a list for `_global` |
| EmoteStore.Store.SettleBadges | src/emotes.js:88-106 | the same for the badge body, through `Overwrite` |
| EmoteStore.Store.LearnEntry | src/emotes.js:156-163 | one turn of the learning loop computes `LearnOne` |
| EmoteStore.Store.LearnInline | src/emotes.js:155-164 | the learning loop leaves the store as `LearnedAssets` describes |
| EmoteStore.Store.HandleEmotes | src/emotes.js:150-210 | the new store and the parts are exactly `Handle` of the old store |
| Segmenter.TwitchEmote | src/emotes.js:158-163 | a learned emote is a `twitch` emote named by `message.substring(start, end + 1)` at its first position, with URL `https://static-cdn.jtvnw.net/emoticons/v2/<id>/default/dark/3.0` |
| Segmenter.LearnOne | src/emotes.js:156-163 | an entry is skipped exactly when some listed emote's name equals the id string; otherwise exactly its emote is appended |
| Segmenter.Learned | src/emotes.js:155-164 | the old list is a prefix of the new one, at most one emote is added per entry, and each added emote is learned from an entry |
| Segmenter.EmitTidy | src/emotes.js:189-207 | no emitted text part is empty and every part is a text or an emote part |
| Segmenter.TextIfAny | src/emotes.js:192 | a text part is produced for a non-empty string and none for the empty one |
| Segmenter.PushText | src/emotes.js:192 | pushing a piece of text appends exactly `TextIfAny` of it |
| Segmenter.EmitFrom | src/emotes.js:186-207 | the emission yields one emote part per match and at most one text part before each match and after the last: between `|found|` and `2 * |found| + 1` parts |
| Segmenter.EmitNoMatches | src/emotes.js:206-207 | with no match the parts are `[text(message)]`, or `[]` for an empty message |
| Segmenter.Emit | src/emotes.js:186-207 | the `emoteIdx` / `stringIdx` loop and the trailing text produce `EmitFrom(message, found, 0)` |
| Segmenter.EmotePartsAppend | src/emotes.js:195-199 | the emote parts of a concatenation are those of each half, in order |
| Segmenter.EmitEmoteParts | src/emotes.js:189-203 | the result holds exactly one emote part per match, in the order of `found`, carrying its fields |
| Segmenter.FlattenAppend | src/emotes.js:186-207 | what a concatenation of parts spells is what each half spells, joined |
| Segmenter.FlattenText | src/emotes.js:192-207 | a pushed text part spells its text |
| Segmenter.FlattenEmitStep | src/emotes.js:191-202 | one loop turn spells the text before the match, then the match's name |
| Segmenter.EmitLossless | src/emotes.js:186-207 | with placed matches each starting at or after the previous one's end, the parts spell the message from the cursor on |
| Segmenter.LearnedAssets | src/emotes.js:155-164 | learning changes only the channel's emote list: same keys, other entries equal, badges and flags kept, the store evolves |
| Segmenter.Candidates | src/emotes.js:168 | the emotes tried are the channel's, in order, followed by the global ones |
| Segmenter.SortedMatches | src/emotes.js:167-183 | every sorted match sits where its name occurs in the message |
| Segmenter.Handle | src/emotes.js:150-210 | an unknown channel gives `[text(message)]` and the store unchanged, even for an empty message; otherwise only the channel's emote list changes |
| Segmenter.HandleParts | src/emotes.js:150-210 | for a loaded channel the parts hold one emote part per sorted match, in order, and no empty text part |
| Segmenter.HandleLossless | src/emotes.js:150-210 | when the sorted matches do not overlap, the parts spell the message exactly |
| Segmenter.ExampleOccurrences | src/emotes.js:169-170 | "Kappa" occurs in "Hello Kappa Kappa" at 6 and 12 |
| Segmenter.ExampleMatches | src/emotes.js:167-183 | the example channel's sorted matches are "Kappa" at [6, 11) and [12, 17) |
| Segmenter.ExampleEmit | src/emotes.js:186-207 | those matches emit `Hello `, the emote, ` `, the emote, with no trailing text |
| Segmenter.ExampleSegmentation | src/emotes.js:150-210 | `handleEmotes("Hello Kappa Kappa")` in a channel listing "Kappa" gives those four parts and leaves the store unchanged |
| Segmenter.TwitchEmoteRelearned | src/emotes.js:156 | as written: learning "Kappa" (id 25) into a list that already holds it appends it a second time |
| Segmenter.LearnOneByName | src/emotes.js:156 | corrected turn: skipped exactly when the derived name is listed, and afterwards it is listed |
| Segmenter.LearnedByName | src/emotes.js:155-164 | corrected loop: the old list is a prefix of the new one |
| Segmenter.LearnedByNameKnows | src/emotes.js:155-164 | after the corrected loop every entry's derived name is listed |
| Segmenter.LearnedByNameKnown | src/emotes.js:155-164 | the corrected loop over entries whose names are all listed changes nothing |
| Segmenter.LearnedByNameIdempotent | src/emotes.js:155-164 | with the corrected check, learning a message's emotes twice adds nothing the second time |
| Segmenter.DuplicateMatchRepeatsText | src/emotes.js:191-192 | as written: two emotes named "Kappa" on the message "Kappa" give emote, text "Kappa", emote |
| Segmenter.FlattenGreedyStep | src/emotes.js:191-202 | an accepted match of the corrected emission spells the text before it, then its name |
| Segmenter.EmitGreedyLossless | src/emotes.js:186-207 | the corrected emission spells the message for any placed matches, overlapping or not |
| Segmenter.EmitGreedyAgrees | src/emotes.js:186-207 | on non-overlapping matches the corrected emission equals the code's |
| Matching.Boundary | src/emotes.js:169 | `\b` at a string end holds exactly when the character inside is a word character, and inside the string exactly when the two neighbours differ in being word characters |
| Matching.MatchesAtWholeWord | src/emotes.js:169 | a match spells the name at that index; for a name that starts and ends with word characters it is a whole-word occurrence, with no word character just before or just after |
| Matching.Advance | src/emotes.js:170 | after a match `matchAll` resumes right past it: by the name's length for a non-empty name, by one character for an empty one |
| Matching.Occurrences | src/emotes.js:169-170 | each reported start is a `\b`-bounded occurrence of the name at or after the scan start, and successive starts do not overlap |
| Matching.OccurrencesComplete | src/emotes.js:169-170 | every `\b`-bounded occurrence is reported or lies inside an earlier reported match |
| Matching.MatchesFor | src/emotes.js:171-179 | one entry per occurrence, in order, with the emote's name, url and type and `end = start + name.length` |
| Matching.AllMatches | src/emotes.js:167-180 | every entry is placed on an occurrence of its name and carries the fields of a listed emote |
| Matching.AllMatchesAppend | src/emotes.js:168 | matching the channel list concatenated with the global list gives the channel's matches, then the global ones |
| Matching.CollectFor | src/emotes.js:171-179 | the inner loop appends exactly the emote's `MatchesFor` entries |
| Matching.CollectMatches | src/emotes.js:167-180 | the nested loops build exactly `AllMatches` |
| Matching.Insert | src/emotes.js:183 | inserting into a sorted list keeps it sorted and adds exactly the one entry |
| Matching.InsertStable | src/emotes.js:183 | an inserted entry goes before the entries with the same start |
| Matching.SortByStart | src/emotes.js:183 | the sorted list is ascending by start and a permutation of `found` |
| Matching.SortByStartStable | src/emotes.js:183 | entries with equal starts keep their discovery order |
| Matching.StableSortUnique | src/emotes.js:183 | two sorted lists with the same entries per start, in order, are equal, so any stable sort gives `SortByStart` |
| Badges.Lookup | src/emotes.js:147 | a key resolves to the channel's badge, else the global badge, else nothing |
| Badges.Resolve | src/emotes.js:147-148 | no more badges than keys, each resolved from some key |
| Badges.ResolveAppend | src/emotes.js:147-148 | the badges of a concatenation of keys keep the keys' order |
| Badges.ResolveOne | src/emotes.js:147-148 | one key gives its channel badge, else its global badge, else is dropped |
| Badges.ResolveAll | src/emotes.js:147-148 | when every key resolves, the i-th badge is the i-th key's |
| Badges.BadgeKeys | src/emotes.js:146 | a missing tag gives no key; a present tag's keys join back to the tag |
| Badges.GetBadges | src/emotes.js:146-148 | fails exactly for a present tag on a channel with no entry; a missing tag gives `[]`; never more badges than keys |
| Badges.GetBadgesOfKeys | src/emotes.js:146-148 | a tag `k1,k2,...` of comma-free keys resolves key by key, in order |
| ChatOverlay.LimitOf | src/index.js:7 | `limit` is 30 when the option is missing, and any given value, 0 included, is kept |
| ChatOverlay.DisplayName | src/index.js:78 | the display name when present and non-empty, else the username |
| ChatOverlay.NameColor | src/index.js:83 | a color is set exactly when the tag is present and non-empty, and it is the tag's |
| ChatOverlay.RenderBadges | src/index.js:63-74 | the badge loop gives one image per badge, in order, with src = url and alt = title = name |
| ChatOverlay.NodesOf | src/index.js:89-110 | a text part renders to one span with its content, an emote part to one image with src = url and alt = title = name, any other part to nothing |
| ChatOverlay.Rendered | src/index.js:88-113 | never more nodes than parts |
| ChatOverlay.RenderedLength | src/index.js:88-113 | there are exactly as many nodes as parts when no part has an unknown type, and fewer otherwise |
| ChatOverlay.RenderedAppend | src/index.js:88-113 | rendered order is part order: rendering a concatenation renders each half in turn |
| ChatOverlay.RenderedPointwise | src/index.js:89-110 | with no unknown part, the i-th node is the i-th part: text with exactly its content, an emote as an image with src = url and alt = title = name |
| ChatOverlay.RenderParts | src/index.js:88-113 | the part loop renders text and emote parts and skips parts of any other type, as `Rendered` |
| ChatOverlay.LineOf | src/index.js:56-132 | a line holds one badge image per badge, in order, the displayed name, the color if set, and the rendered parts |
| ChatOverlay.Appended | src/index.js:133-150 | one line is added at the end and, when the count exceeds the limit, exactly the oldest is removed; earlier lines keep their order and a count within the limit stays within it |
| ChatOverlay.Chat.constructor | src/index.js:5-10 | a new overlay has the defaulted limit and no line |
| ChatOverlay.Chat.Message | src/index.js:56-151 | when `getBadges` throws nothing changes; otherwise the store is updated as `Handle` says and the rendered line is appended, then the oldest evicted over the limit |

## Left out

- Network and promises: `fetch`, `response.json()` and the `Promise.all` join are outside the model. A failed fetch or unparsable body rejects the promise before any handler runs, so it changes nothing. The parsed body is an input of the `Settle` methods.
- The `error` event in the `catch` blocks: the module never defines `exports.events`, so the model records only that a failed loop leaves its flag unset.
- Concurrency: interleavings of several `loadChannel` calls are not modelled. Each `Settle` call is one atomic step, applied in any order.
- Regular-expression syntax in emote names: the pattern `\b<name>\b` is modelled for names without regex metacharacters (`CanSegment`, `AllLiteral`). Names such as `:)` that the code would treat as a pattern or reject are excluded.
- Malformed inline positions: tmi.js delivers `"start-end"` pairs of numbers with at least one pair per emote (`WellFormedInline`). `Number` on other text giving `NaN` is not modelled.
- Key order of `for...in`: sets, versions, badge sets and inline emotes are given as ordered sequences. JavaScript would visit integer-like keys in ascending numeric order first.
- Object prototype keys: `badges[key]` on a key such as `constructor` would find an inherited property; badge maps are modelled as plain maps.
- Channels named like an `Object.prototype` property, such as `constructor`: `loadedAssets[channel]` is then already truthy, so `loadChannel` never creates the entry (src/emotes.js:128) and `loadEmotes` and `handleEmotes` throw on the missing fields. The model keeps the store as a plain map, so such a channel gets its entry like any other.
- A `null` entry in an FFZ `emoticons` list or in a BTTV list: reading its fields throws after the earlier entries were pushed (src/emotes.js:36, src/emotes.js:65). Entries are modelled as objects; only a missing list or a missing body is modelled as throwing.
- A badge version object without `image_url_4x`: the code stores a badge whose url is `undefined` (src/emotes.js:94). Versions are modelled as either `null` or carrying an image URL.
- Characters outside the Basic Multilingual Plane: text is modelled as a sequence of BMP characters, one `char` per UTF-16 code unit. A message holding such a character (an emoji, say), which JavaScript indexes as two units, is outside the model: the inline emote positions, match indices and `substring` cuts of the code count code units, and the model's would not agree with them. `\w` is ASCII only, as without the `u` flag.
- `Chat`: DOM creation and styles, `bootstrap`, the tmi.js client wiring in `connect`, the `requestAnimationFrame` animation and the `speed` option are left out. `limit` is an integer. A non-numeric limit compared with `>` is not modelled.
- `loadChannel` writes the defaults back into the caller's `args` object; the model only uses them.
- `dev/index.js` is browser bootstrap and is not part of this model.
- Segmenter.Learned: its contract states which emotes may be added and that the list only grows. The exact list is given by `LearnOne` turn by turn.

## Findings

| source | as written | input that shows it | evidently intended | confidence | as-written member | corrected member |
|---|---|---|---|---|---|---|
| src/emotes.js:156 | the "known" check compares each listed emote's name with the Twitch emote id | message "Kappa" with inline emote id `25` at `0-4`, twice: the list gets "Kappa" twice | skip an entry whose derived name is already listed, so learning is idempotent | not executed | Segmenter.TwitchEmoteRelearned | Segmenter.LearnedByNameIdempotent |
| src/emotes.js:189-203 | every sorted match is emitted, even one starting before the cursor, where `substring` swaps its arguments | an FFZ and a BTTV emote both named "Kappa", message "Kappa": emote, text "Kappa", emote | skip a match that starts before the cursor, so the parts always spell the message | not executed | Segmenter.DuplicateMatchRepeatsText | Segmenter.EmitGreedyLossless |

The store itself follows the code as written. The corrected members stand beside it, and `Segmenter.EmitGreedyAgrees` shows that the correction changes nothing on non-overlapping matches.
