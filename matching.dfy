/**
 * Finding emote names in a message and ordering the matches
 * (src/emotes.js, `handleEmotes`, the `found` list).
 */
module Matching {
  import opened Catalog

  /** `\w` of a JavaScript regular expression without the `u` flag. */
  predicate IsWordChar(c: char)
  {
    ('A' <= c <= 'Z') || ('a' <= c <= 'z') || ('0' <= c <= '9') || c == '_'
  }

  /** Whether position `i` holds a word character; positions outside the string do not. */
  predicate WordAt(s: string, i: int)
  {
    0 <= i < |s| && IsWordChar(s[i])
  }

  /** `\b` at position `i`: the characters on either side differ in being word characters. */
  predicate Boundary(s: string, i: int): (r: bool)
    ensures i <= 0 ==> (r <==> WordAt(s, i))
    ensures |s| <= i ==> (r <==> WordAt(s, i - 1))
    ensures 0 < i < |s| ==> (r <==> IsWordChar(s[i - 1]) != IsWordChar(s[i]))
  {
    WordAt(s, i - 1) != WordAt(s, i)
  }

  /** Characters with a meaning in a regular expression; a name made of none of them is a literal pattern. */
  const RegexSyntax: set<char> := {'\\', '^', '$', '.', '*', '+', '?', '(', ')', '[', ']', '{', '}', '|'}

  predicate IsLiteral(name: string)
  {
    forall i :: 0 <= i < |name| ==> name[i] !in RegexSyntax
  }

  /** The pattern `\b<name>\b` matches the message at index `i`. */
  predicate MatchesAt(s: string, name: string, i: nat)
  {
    i + |name| <= |s| && s[i..i + |name|] == name && Boundary(s, i) && Boundary(s, i + |name|)
  }

  /**
   * For a name that begins and ends with word characters, a match is a
   * whole-word occurrence: the name with no word character right before or
   * right after it.
   */
  lemma MatchesAtWholeWord(s: string, name: string, i: nat)
    requires |name| > 0 && IsWordChar(name[0]) && IsWordChar(name[|name| - 1])
    ensures MatchesAt(s, name, i) <==>
      i + |name| <= |s| && s[i..i + |name|] == name && !WordAt(s, i - 1) && !WordAt(s, i + |name|)
  {
    if i + |name| <= |s| && s[i..i + |name|] == name {
      assert s[i] == name[0] && s[i + |name| - 1] == name[|name| - 1];
    }
  }

  /** How far `matchAll` moves on after a match: past it, or one step for an empty match. */
  function Advance(name: string): (n: nat)
    ensures n >= 1 && n >= |name|
    ensures |name| > 0 ==> n == |name|
    ensures |name| == 0 ==> n == 1
  {
    if |name| == 0 then 1 else |name|
  }

  /**
   * Start indices of `message.matchAll(/\b<name>\b/g)` for a literal name,
   * scanning from `from`.
   */
  function Occurrences(s: string, name: string, from: nat): (r: seq<nat>)
    requires IsLiteral(name)
    ensures forall k :: 0 <= k < |r| ==> from <= r[k] && MatchesAt(s, name, r[k])
    ensures forall k :: 0 <= k < |r| - 1 ==> r[k] + Advance(name) <= r[k + 1]
    decreases |s| + 1 - from
  {
    if from + |name| > |s| then []
    else if MatchesAt(s, name, from) then [from] + Occurrences(s, name, from + Advance(name))
    else Occurrences(s, name, from + 1)
  }

  /** Position `p` lies inside one of the matches starting at the indices `r`. */
  predicate Covered(r: seq<nat>, p: nat, width: nat)
  {
    exists k :: 0 <= k < |r| && r[k] <= p < r[k] + width
  }

  lemma CoveredByHead(h: nat, r: seq<nat>, p: nat, width: nat)
    requires h <= p < h + width
    ensures Covered([h] + r, p, width)
  {
    assert ([h] + r)[0] == h;
  }

  lemma CoveredByTail(h: nat, r: seq<nat>, p: nat, width: nat)
    requires Covered(r, p, width)
    ensures Covered([h] + r, p, width)
  {
    var k :| 0 <= k < |r| && r[k] <= p < r[k] + width;
    assert ([h] + r)[k + 1] == r[k];
  }

  /**
   * Every match of the pattern at or after `from` is reported, or lies inside
   * an earlier reported match (the scan resumes after each match).
   */
  lemma {:induction false} OccurrencesComplete(s: string, name: string, from: nat, p: nat)
    requires IsLiteral(name)
    requires from <= p && MatchesAt(s, name, p)
    ensures Covered(Occurrences(s, name, from), p, Advance(name))
    decreases |s| + 1 - from
  {
    var r := Occurrences(s, name, from);
    if from + |name| > |s| {
      assert false;
    } else if MatchesAt(s, name, from) {
      var next := from + Advance(name);
      assert r == [from] + Occurrences(s, name, next);
      if p < next {
        CoveredByHead(from, Occurrences(s, name, next), p, Advance(name));
      } else {
        OccurrencesComplete(s, name, next, p);
        CoveredByTail(from, Occurrences(s, name, next), p, Advance(name));
      }
    } else {
      assert p != from;
      OccurrencesComplete(s, name, from + 1, p);
    }
  }

  /** One entry of `found`: the emote's fields plus where it sits in the message. */
  datatype Match = Match(name: string, url: string, kind: EmoteType, start: nat, end: nat)

  /** A match covers exactly its name's characters in the message. */
  predicate Placed(s: string, m: Match)
  {
    m.start <= m.end <= |s| && m.end == m.start + |m.name| && s[m.start..m.end] == m.name
  }

  predicate AllLiteral(emotes: seq<Emote>)
  {
    forall i :: 0 <= i < |emotes| ==> IsLiteral(emotes[i].name)
  }

  /** The entries pushed for one emote, in the order `matchAll` yields them. */
  function MatchesFor(s: string, e: Emote): (r: seq<Match>)
    requires IsLiteral(e.name)
    ensures |r| == |Occurrences(s, e.name, 0)|
    ensures forall k :: 0 <= k < |r| ==>
      r[k] == Match(e.name, e.url, e.kind, Occurrences(s, e.name, 0)[k], Occurrences(s, e.name, 0)[k] + |e.name|)
  {
    var occ := Occurrences(s, e.name, 0);
    seq(|occ|, k requires 0 <= k < |occ| => Match(e.name, e.url, e.kind, occ[k], occ[k] + |e.name|))
  }

  /** The match carries the name, url and type of some listed emote. */
  predicate FromEmote(emotes: seq<Emote>, m: Match)
  {
    exists e :: e in emotes && e.name == m.name && e.url == m.url && e.kind == m.kind
  }

  /**
   * The `found` list before sorting: for each emote in list order, the matches
   * of its name. Every entry is a boundary-delimited occurrence of a listed
   * emote's name and carries that emote's url and type.
   */
  function AllMatches(s: string, emotes: seq<Emote>): (r: seq<Match>)
    requires AllLiteral(emotes)
    ensures forall m :: m in r ==> Placed(s, m) && MatchesAt(s, m.name, m.start)
    ensures forall m :: m in r ==> FromEmote(emotes, m)
    decreases |emotes|
  {
    if emotes == [] then []
    else
      var init := emotes[..|emotes| - 1];
      var last := emotes[|emotes| - 1];
      assert forall e :: e in init ==> e in emotes;
      AllMatches(s, init) + MatchesFor(s, last)
  }

  /** Matching a concatenated list gives the matches of the first part, then of the second. */
  lemma {:induction false} AllMatchesAppend(s: string, a: seq<Emote>, b: seq<Emote>)
    requires AllLiteral(a) && AllLiteral(b)
    ensures AllLiteral(a + b)
    ensures AllMatches(s, a + b) == AllMatches(s, a) + AllMatches(s, b)
    decreases |b|
  {
    assert AllLiteral(a + b) by {
      forall i | 0 <= i < |a + b| ensures IsLiteral((a + b)[i].name) {
        if i >= |a| { assert (a + b)[i] == b[i - |a|]; }
      }
    }
    if b == [] {
      assert a + b == a;
    } else {
      var init := b[..|b| - 1];
      assert (a + b)[..|a + b| - 1] == a + init;
      assert (a + b)[|a + b| - 1] == b[|b| - 1];
      AllMatchesAppend(s, a, init);
    }
  }

  /** The list built after one more emote of the outer loop. */
  lemma AllMatchesStep(s: string, emotes: seq<Emote>, i: nat)
    requires AllLiteral(emotes) && i < |emotes|
    ensures AllLiteral(emotes[..i]) && AllLiteral(emotes[..i + 1])
    ensures AllMatches(s, emotes[..i + 1]) == AllMatches(s, emotes[..i]) + MatchesFor(s, emotes[i])
  {
    var p := emotes[..i + 1];
    assert p[..|p| - 1] == emotes[..i];
    assert p[|p| - 1] == emotes[i];
  }

  /** The inner loop over `message.matchAll(regex)`: one entry pushed per occurrence. */
  method CollectFor(s: string, e: Emote, found: seq<Match>) returns (r: seq<Match>)
    requires IsLiteral(e.name)
    ensures r == found + MatchesFor(s, e)
  {
    var occ := Occurrences(s, e.name, 0);
    r := found;
    var j := 0;
    while j < |occ|
      invariant 0 <= j <= |occ|
      invariant r == found + MatchesFor(s, e)[..j]
    {
      r := r + [Match(e.name, e.url, e.kind, occ[j], occ[j] + |e.name|)];
      j := j + 1;
    }
    assert MatchesFor(s, e)[..|occ|] == MatchesFor(s, e);
  }

  /** The nested loops that build `found`. */
  method CollectMatches(s: string, emotes: seq<Emote>) returns (found: seq<Match>)
    requires AllLiteral(emotes)
    ensures found == AllMatches(s, emotes)
  {
    found := [];
    var i := 0;
    while i < |emotes|
      invariant 0 <= i <= |emotes|
      invariant AllLiteral(emotes[..i])
      invariant found == AllMatches(s, emotes[..i])
    {
      AllMatchesStep(s, emotes, i);
      found := CollectFor(s, emotes[i], found);
      i := i + 1;
    }
    assert emotes[..|emotes|] == emotes;
  }

  /** Ascending by start offset. */
  predicate Sorted(ms: seq<Match>)
  {
    forall i, j :: 0 <= i < j < |ms| ==> ms[i].start <= ms[j].start
  }

  /** The matches that start at `k`, in list order. */
  function WithStart(ms: seq<Match>, k: nat): (r: seq<Match>)
    ensures forall m :: m in r ==> m in ms && m.start == k
    ensures |r| <= |ms|
  {
    if ms == [] then []
    else (if ms[0].start == k then [ms[0]] else []) + WithStart(ms[1..], k)
  }

  /** A match that starts no later than a sorted list's head extends it sorted. */
  lemma ConsSorted(h: Match, ms: seq<Match>)
    requires Sorted(ms) && (ms != [] ==> h.start <= ms[0].start)
    ensures Sorted([h] + ms)
  {
    var r := [h] + ms;
    forall i, j | 0 <= i < j < |r| ensures r[i].start <= r[j].start {
      if i > 0 {
        assert r[i] == ms[i - 1] && r[j] == ms[j - 1];
      } else {
        assert r[j] == ms[j - 1];
      }
    }
  }

  /** Keeping a head that starts before `m` in front of the insertion into the tail. */
  lemma InsertBehindHead(h: Match, tail: seq<Match>, m: Match, rest: seq<Match>)
    requires Sorted([h] + tail) && h.start < m.start
    requires Sorted(rest) && multiset(rest) == multiset(tail) + multiset{m}
    requires |rest| == |tail| + 1 && (rest[0] == m || (tail != [] && rest[0] == tail[0]))
    ensures Sorted([h] + rest)
    ensures multiset([h] + rest) == multiset([h] + tail) + multiset{m}
  {
    if rest[0] != m {
      var whole := [h] + tail;
      assert whole[0] == h && whole[1] == tail[0];
      assert whole[0].start <= whole[1].start;
    }
    ConsSorted(h, rest);
  }

  /** Puts `m` in front of the first entry that does not start before it. */
  function Insert(m: Match, ms: seq<Match>): (r: seq<Match>)
    requires Sorted(ms)
    ensures Sorted(r)
    ensures multiset(r) == multiset(ms) + multiset{m}
    ensures |r| == |ms| + 1 && (r[0] == m || (ms != [] && r[0] == ms[0]))
    decreases |ms|
  {
    if ms == [] || m.start <= ms[0].start then
      ConsSorted(m, ms);
      [m] + ms
    else
      var tail := ms[1..];
      assert ms == [ms[0]] + tail;
      assert Sorted(tail);
      var rest := Insert(m, tail);
      InsertBehindHead(ms[0], tail, m, rest);
      [ms[0]] + rest
  }

  /** The entries with start `k` of a list that begins with `m`. */
  lemma WithStartCons(m: Match, ms: seq<Match>, k: nat)
    ensures WithStart([m] + ms, k) == (if m.start == k then [m] else []) + WithStart(ms, k)
  {
    assert ([m] + ms)[1..] == ms;
  }

  /** Inserting `m` places it before every entry with the same start. */
  lemma {:induction false} InsertStable(m: Match, ms: seq<Match>, k: nat)
    requires Sorted(ms)
    ensures WithStart(Insert(m, ms), k) == (if m.start == k then [m] else []) + WithStart(ms, k)
    decreases |ms|
  {
    if ms == [] || m.start <= ms[0].start {
      assert Insert(m, ms) == [m] + ms;
      WithStartCons(m, ms, k);
    } else {
      var tail := ms[1..];
      var rest := Insert(m, tail);
      assert Insert(m, ms) == [ms[0]] + rest;
      assert ms == [ms[0]] + tail;
      InsertStable(m, tail, k);
      WithStartCons(ms[0], rest, k);
      WithStartCons(ms[0], tail, k);
      PrefixesCommute(if ms[0].start == k then [ms[0]] else [], if m.start == k then [m] else [], WithStart(tail, k));
    }
  }

  /** Two prefixes of which one is empty can be put in either order. */
  lemma PrefixesCommute(a: seq<Match>, b: seq<Match>, t: seq<Match>)
    requires a == [] || b == []
    ensures a + (b + t) == b + (a + t)
  {
    if a == [] {
      assert a + (b + t) == b + t;
      assert a + t == t;
    } else {
      assert b + t == t;
      assert b + (a + t) == a + t;
    }
  }

  /**
   * Sorting the matches by start with a stable sort: the result is
   * ascending by start, a permutation of the input, and matches with the same
   * start keep their input order.
   */
  function SortByStart(ms: seq<Match>): (r: seq<Match>)
    ensures Sorted(r)
    ensures multiset(r) == multiset(ms)
  {
    if ms == [] then []
    else
      assert ms == [ms[0]] + ms[1..];
      Insert(ms[0], SortByStart(ms[1..]))
  }

  /** Matches with the same start keep their input order through the sort. */
  lemma {:induction false} SortByStartStable(ms: seq<Match>, k: nat)
    ensures WithStart(SortByStart(ms), k) == WithStart(ms, k)
    decreases |ms|
  {
    if ms != [] {
      SortByStartStable(ms[1..], k);
      InsertStable(ms[0], SortByStart(ms[1..]), k);
      WithStartCons(ms[0], ms[1..], k);
      assert ms == [ms[0]] + ms[1..];
    }
  }

  /** In a sorted list whose entries with start `k` are not all gone, the first entry starts no later than `k`. */
  lemma {:induction false} HeadStartsFirst(ms: seq<Match>, k: nat)
    requires Sorted(ms) && WithStart(ms, k) != []
    ensures ms[0].start <= k
  {
    var m := WithStart(ms, k)[0];
    assert m in WithStart(ms, k);
    var i :| 0 <= i < |ms| && ms[i] == m;
  }

  /** The definition of `WithStart`, one step. */
  lemma WithStartUnfold(ms: seq<Match>, k: nat)
    requires ms != []
    ensures WithStart(ms, k) == (if ms[0].start == k then [ms[0]] else []) + WithStart(ms[1..], k)
  {
  }

  /** Lists that agree on the matches of every start offset agree on being empty. */
  lemma AgreeEmpty(a: seq<Match>, b: seq<Match>)
    requires forall k :: WithStart(a, k) == WithStart(b, k)
    requires a == []
    ensures b == []
  {
    if b != [] {
      WithStartUnfold(b, b[0].start);
      assert false;
    }
  }

  /** Sorted lists that agree on the matches of every start offset begin with the same match. */
  lemma AgreeHead(a: seq<Match>, b: seq<Match>)
    requires Sorted(a) && Sorted(b) && a != [] && b != []
    requires forall k :: WithStart(a, k) == WithStart(b, k)
    ensures a[0] == b[0]
  {
    var k, l := a[0].start, b[0].start;
    WithStartUnfold(a, k);
    WithStartUnfold(b, l);
    assert WithStart(b, k) != [];
    assert WithStart(a, l) != [];
    HeadStartsFirst(b, k);
    HeadStartsFirst(a, l);
    WithStartUnfold(b, k);
    assert WithStart(a, k)[0] == a[0];
    assert WithStart(b, k)[0] == b[0];
  }

  /** Lists with the same head that agree on every start offset agree on their tails too. */
  lemma AgreeTail(a: seq<Match>, b: seq<Match>)
    requires a != [] && b != [] && a[0] == b[0]
    requires forall k :: WithStart(a, k) == WithStart(b, k)
    ensures forall k :: WithStart(a[1..], k) == WithStart(b[1..], k)
  {
    forall j ensures WithStart(a[1..], j) == WithStart(b[1..], j) {
      WithStartUnfold(a, j);
      WithStartUnfold(b, j);
      var h := if a[0].start == j then [a[0]] else [];
      assert h + WithStart(a[1..], j) == h + WithStart(b[1..], j);
      assert WithStart(a[1..], j) == (h + WithStart(a[1..], j))[|h|..];
      assert WithStart(b[1..], j) == (h + WithStart(b[1..], j))[|h|..];
    }
  }

  /**
   * A stable sort by start is unique: two sorted lists that agree on the
   * matches of every start offset, in order, are equal. So `SortByStart` is
   * the one result an ECMAScript-conformant `Array.prototype.sort` can give.
   */
  lemma {:induction false} StableSortUnique(a: seq<Match>, b: seq<Match>)
    requires Sorted(a) && Sorted(b)
    requires forall k :: WithStart(a, k) == WithStart(b, k)
    ensures a == b
    decreases |a|
  {
    if a == [] {
      AgreeEmpty(a, b);
    } else if b == [] {
      AgreeEmpty(b, a);
    } else {
      AgreeHead(a, b);
      AgreeTail(a, b);
      StableSortUnique(a[1..], b[1..]);
      assert a == [a[0]] + a[1..] && b == [b[0]] + b[1..];
    }
  }
}
