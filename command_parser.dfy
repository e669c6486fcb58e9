/** The voice-command parser: `normalize_text`, recognising the two
    "закрыл линию" / "закрыл карту" commands, and matching the spoken name
    against the roster. Three library behaviours are parameters: Unicode
    `str.lower()` (`lower`), membership in the regular-expression class `\w`
    (`isWord`), and the similarity percentage
    `int(SequenceMatcher(None, a, b).ratio() * 100)` (`score`). */
module CommandParser {
  import opened Wrappers
  import opened Seqs
  import opened Text

  // ----- normalize_text -----

  /** `ё` and the `е` it is replaced by. */
  const Yo: char := '\U{451}'
  const Ye: char := '\U{435}'

  /** `str.replace("ё", "е")`. */
  function ReplaceYo(s: string): string {
    seq(|s|, i requires 0 <= i < |s| => if s[i] == Yo then Ye else s[i])
  }

  /** `re.sub(r"[^\w\s]", " ", s)`: every character that is neither a word
      character nor whitespace becomes a space. */
  function Depunctuate(isWord: char -> bool, s: string): string {
    seq(|s|, i requires 0 <= i < |s| => if isWord(s[i]) || IsSpace(s[i]) then s[i] else ' ')
  }

  /** The substitution read one character at a time: a whitespace character
      right after whitespace is dropped, any other whitespace character
      becomes `' '`, and every other character is kept. `afterSpace` says
      whether the character before `s` was whitespace. */
  function Squeeze(afterSpace: bool, s: string): string
    decreases |s|
  {
    if s == [] then []
    else if IsSpace(s[0]) then (if afterSpace then [] else [' ']) + Squeeze(true, s[1..])
    else [s[0]] + Squeeze(false, s[1..])
  }

  /** After whitespace, further whitespace adds nothing. */
  lemma {:induction false} SqueezeSkip(s: string, i: nat)
    requires i <= |s|
    ensures Squeeze(true, s[i..]) == Squeeze(true, s[SkipSpace(s, i)..])
    decreases |s| - i
  {
    if i < |s| && IsSpace(s[i]) {
      assert s[i..][1..] == s[i + 1..];
      SqueezeSkip(s, i + 1);
    }
  }

  /** Before a word character, or at the end, the previous character does
      not matter. */
  lemma SqueezeWord(s: string)
    requires s == [] || !IsSpace(s[0])
    ensures Squeeze(true, s) == Squeeze(false, s)
  {
  }

  /** `re.sub(r"\s+", " ", s)`: every maximal run of whitespace becomes one
      space. */
  function Collapse(s: string): (r: string)
    ensures r == Squeeze(false, s)
    ensures r == [] <==> s == []
    ensures r != [] ==> (IsSpace(r[0]) <==> IsSpace(s[0]))
    ensures forall i :: 0 <= i < |r| && IsSpace(r[i]) ==> r[i] == ' '
    ensures forall i :: 0 <= i < |r| && !IsSpace(r[i]) ==> r[i] in s
    ensures forall i :: 0 <= i < |r| - 1 ==> !(IsSpace(r[i]) && IsSpace(r[i + 1]))
    decreases |s|
  {
    if s == [] then []
    else if IsSpace(s[0]) then
      var rest := s[SkipSpace(s, 0)..];
      assert forall c :: c in rest ==> c in s;
      SqueezeSkip(s, 1);
      assert SkipSpace(s, 0) == SkipSpace(s, 1);
      SqueezeWord(rest);
      [' '] + Collapse(rest)
    else
      assert forall c :: c in s[1..] ==> c in s;
      [s[0]] + Collapse(s[1..])
  }

  /** `normalize_text`. */
  function NormalizeText(lower: string -> string, isWord: char -> bool, value: string): string {
    Strip(Collapse(Depunctuate(isWord, ReplaceYo(lower(value)))))
  }

  /** The shape `normalize_text` leaves: no whitespace at either end, no two
      whitespace characters in a row, every whitespace character a plain
      space, every other character a word character, and no `ё`. */
  predicate IsNormal(isWord: char -> bool, s: string) {
    (s == [] || (!IsSpace(s[0]) && !IsSpace(s[|s| - 1]))) &&
    (forall i :: 0 <= i < |s| - 1 ==> !(IsSpace(s[i]) && IsSpace(s[i + 1]))) &&
    (forall i :: 0 <= i < |s| ==> s[i] == ' ' || (!IsSpace(s[i]) && isWord(s[i]) && s[i] != Yo))
  }

  lemma NormalizeTextShape(lower: string -> string, isWord: char -> bool, value: string)
    ensures IsNormal(isWord, NormalizeText(lower, isWord, value))
  {
    var d := Depunctuate(isWord, ReplaceYo(lower(value)));
    assert forall c :: c in d ==> c == ' ' || IsSpace(c) || (isWord(c) && c != Yo);
    var v := Collapse(d);
    var i, j := StripIsSlice(v);
    TrimmedSliceNormal(isWord, d, v, v[i..j], i);
  }

  /** A slice of a collapsed string of spaces and word characters other
      than `ё` is normal once it has no whitespace at either end. */
  lemma TrimmedSliceNormal(isWord: char -> bool, d: string, v: string, r: string, i: nat)
    requires forall c :: c in d ==> c == ' ' || IsSpace(c) || (isWord(c) && c != Yo)
    requires v == Collapse(d) && i + |r| <= |v| && r == v[i..i + |r|]
    requires r == [] || (!IsSpace(r[0]) && !IsSpace(r[|r| - 1]))
    ensures IsNormal(isWord, r)
  {
    assert forall k :: 0 <= k < |r| ==> r[k] == v[i + k];
  }

  /** A string already in normal form, which `lower` leaves alone, is its
      own normalisation. */
  lemma NormalizeFixedPoint(lower: string -> string, isWord: char -> bool, s: string)
    requires IsNormal(isWord, s) && lower(s) == s
    ensures NormalizeText(lower, isWord, s) == s
  {
    assert ReplaceYo(s) == s;
    assert Depunctuate(isWord, s) == s;
    CollapseSpaced(s);
    assert SkipSpace(s, 0) == 0;
    assert BackSpace(s, 0, |s|) == |s|;
  }

  /** `normalize_text` is idempotent whenever `lower` leaves its output
      alone. */
  lemma NormalizeIdempotent(lower: string -> string, isWord: char -> bool, value: string)
    requires lower(NormalizeText(lower, isWord, value)) == NormalizeText(lower, isWord, value)
    ensures NormalizeText(lower, isWord, NormalizeText(lower, isWord, value)) == NormalizeText(lower, isWord, value)
  {
    NormalizeTextShape(lower, isWord, value);
    NormalizeFixedPoint(lower, isWord, NormalizeText(lower, isWord, value));
  }

  /** Collapsing changes nothing once whitespace is single plain spaces. */
  lemma {:induction false} CollapseSpaced(s: string)
    requires forall i :: 0 <= i < |s| && IsSpace(s[i]) ==> s[i] == ' '
    requires forall i :: 0 <= i < |s| - 1 ==> !(IsSpace(s[i]) && IsSpace(s[i + 1]))
    ensures Collapse(s) == s
    decreases |s|
  {
    if s != [] {
      if IsSpace(s[0]) {
        assert SkipSpace(s, 0) == 1 by {
          if |s| > 1 { assert !IsSpace(s[1]); }
        }
      }
      CollapseSpaced(s[1..]);
    }
  }

  // ----- _extract_command -----

  datatype EventType = CloseLine | CloseCard

  /** The literal beginnings of the two command patterns, in the order
      `_COMMAND_PATTERNS` tries them. */
  const LinePrefix: string := "закрыл линию"
  const CardPrefix: string := "закрыл карту"

  /** The ways `\s+(.+)$` can match `rest`, the text after a prefix: the
      whitespace `rest[..m]`, the group `rest[m..n]` free of newlines (`.`
      does not match one), and after it the end of the text or a final
      newline (where `$` also matches). */
  predicate SplitsAt(rest: string, m: nat, n: nat) {
    1 <= m < n <= |rest| &&
    (n == |rest| || (n == |rest| - 1 && rest[n] == '\n')) &&
    AllSpace(rest[..m]) &&
    forall k :: m <= k < n ==> rest[k] != '\n'
  }

  /** Where the group must end: before a final newline, else at the end. */
  function TailEnd(rest: string): nat {
    if rest != [] && rest[|rest| - 1] == '\n' then |rest| - 1 else |rest|
  }

  /** The greedy `\s+` gives back characters only as far as `.+` needs one. */
  function GroupStart(rest: string): nat
    requires TailEnd(rest) >= 1
  {
    var k := SkipSpace(rest, 0);
    if k < TailEnd(rest) - 1 then k else TailEnd(rest) - 1
  }

  /** `group(1)` of `\s+(.+)$` matched against `rest`, if it matches. */
  function Group(rest: string): Option<string> {
    if TailEnd(rest) == 0 then None
    else
      var m := GroupStart(rest);
      if m >= 1 && '\n' !in rest[m..TailEnd(rest)] then Some(rest[m..TailEnd(rest)]) else None
  }

  /** The group is found exactly when some split matches, and it is the
      split the backtracking matcher settles on first: the one whose
      whitespace run is longest. */
  lemma GroupIsGreedySplit(rest: string)
    ensures Group(rest).Some? <==> exists m: nat, n: nat :: SplitsAt(rest, m, n)
    ensures Group(rest).Some? ==> SplitsAt(rest, GroupStart(rest), TailEnd(rest)) &&
                                  Group(rest).value == rest[GroupStart(rest)..TailEnd(rest)]
    ensures forall m: nat, n: nat :: SplitsAt(rest, m, n) ==> n == TailEnd(rest) && m <= GroupStart(rest)
  {
    forall m: nat, n: nat | SplitsAt(rest, m, n) ensures n == TailEnd(rest) && m <= GroupStart(rest) && Group(rest).Some? {
      if rest[|rest| - 1] == '\n' {
        assert n != |rest|;
      }
      SkipSpacePast(rest, 0, m);
      assert forall k :: GroupStart(rest) <= k < n ==> rest[k] != '\n';
    }
    if Group(rest).Some? {
      assert SplitsAt(rest, GroupStart(rest), TailEnd(rest)) by {
        var m := GroupStart(rest);
        assert forall k :: m <= k < TailEnd(rest) ==> rest[k] in rest[m..TailEnd(rest)];
      }
    }
  }

  /** Whitespace up to `m` is skipped at least as far as `m`. */
  lemma {:induction false} SkipSpacePast(s: string, i: nat, m: nat)
    requires i <= m <= |s| && forall k :: i <= k < m ==> IsSpace(s[k])
    ensures SkipSpace(s, i) >= m
    decreases m - i
  {
    if i < m {
      SkipSpacePast(s, i + 1, m);
    }
  }

  /** A recognised command and the stripped name that follows it. */
  datatype Command = Command(eventType: EventType, requestedName: string)

  /** `_extract_command`: the line pattern first, then the card pattern. */
  function ExtractCommand(text: string): (r: Option<Command>)
    ensures r.Some? <==> (LinePrefix <= text && Group(text[|LinePrefix|..]).Some?) ||
                         (CardPrefix <= text && Group(text[|CardPrefix|..]).Some?)
    ensures r.Some? && r.value.eventType == CloseLine <==> LinePrefix <= text && Group(text[|LinePrefix|..]).Some?
    ensures r.Some? && r.value.eventType == CloseLine ==>
              r.value.requestedName == Strip(Group(text[|LinePrefix|..]).value)
    ensures r.Some? && r.value.eventType == CloseCard ==>
              r.value.requestedName == Strip(Group(text[|CardPrefix|..]).value)
    ensures r.Some? ==> r.value.requestedName == [] ||
                        (!IsSpace(r.value.requestedName[0]) && !IsSpace(r.value.requestedName[|r.value.requestedName| - 1]))
  {
    if LinePrefix <= text && Group(text[|LinePrefix|..]).Some? then
      Some(Command(CloseLine, Strip(Group(text[|LinePrefix|..]).value)))
    else if CardPrefix <= text && Group(text[|CardPrefix|..]).Some? then
      Some(Command(CloseCard, Strip(Group(text[|CardPrefix|..]).value)))
    else None
  }

  /** No text starts with both prefixes, so the order in which the
      patterns are tried never changes the outcome. */
  lemma PrefixesExclusive(text: string)
    ensures !(LinePrefix <= text && CardPrefix <= text)
  {
    assert LinePrefix[7] != CardPrefix[7];
  }

  // ----- _match_player -----

  /** `[player for player in players if player and player.strip()]`. */
  function NamedPlayers(players: seq<string>): (r: seq<string>)
    ensures forall i :: 0 <= i < |r| ==> Strip(r[i]) != [] && r[i] in players
    ensures forall i :: 0 <= i < |players| && Strip(players[i]) != [] ==> players[i] in r
    decreases |players|
  {
    if players == [] then []
    else
      var init := players[..|players| - 1];
      var r := NamedPlayers(init);
      assert forall x :: x in init ==> x in players;
      if Strip(players[|players| - 1]) != [] then r + [players[|players| - 1]] else r
  }

  /** The normalised form of every player, in order. */
  function NormalizedAll(lower: string -> string, isWord: char -> bool, ps: seq<string>): seq<string> {
    seq(|ps|, i requires 0 <= i < |ps| => NormalizeText(lower, isWord, ps[i]))
  }

  /** The values of `normalized_to_original` after assigning
      `normalize_text(p)` to `p` for every `p` of `ps` in turn. */
  function IndexMap(lower: string -> string, isWord: char -> bool, ps: seq<string>): map<string, string>
    decreases |ps|
  {
    if ps == [] then map[]
    else IndexMap(lower, isWord, ps[..|ps| - 1])[NormalizeText(lower, isWord, ps[|ps| - 1]) := ps[|ps| - 1]]
  }

  /** The last position of `x` in `s`. */
  function LastIndexOf(s: seq<string>, x: string): (r: nat)
    requires x in s
    ensures r < |s| && s[r] == x
    ensures forall j :: r < j < |s| ==> s[j] != x
    decreases |s|
  {
    if s[|s| - 1] == x then |s| - 1 else LastIndexOf(s[..|s| - 1], x)
  }

  /** Dropping the last player drops the last normalised name. */
  lemma NormalizedInit(lower: string -> string, isWord: char -> bool, ps: seq<string>)
    requires ps != []
    ensures NormalizedAll(lower, isWord, ps) ==
            NormalizedAll(lower, isWord, ps[..|ps| - 1]) + [NormalizeText(lower, isWord, ps[|ps| - 1])]
  {
  }

  /** The dictionary has a key for every normalised name, and no other. */
  lemma {:induction false} IndexMapKeys(lower: string -> string, isWord: char -> bool, ps: seq<string>)
    ensures forall k :: k in IndexMap(lower, isWord, ps) <==> k in NormalizedAll(lower, isWord, ps)
    decreases |ps|
  {
    if ps != [] {
      IndexMapKeys(lower, isWord, ps[..|ps| - 1]);
      NormalizedInit(lower, isWord, ps);
    }
  }

  /** A later player with the same normalised name overwrites an earlier
      one: each key holds the last player with that normalised name. */
  lemma {:induction false} IndexMapMeaning(lower: string -> string, isWord: char -> bool, ps: seq<string>)
    ensures forall k :: k in IndexMap(lower, isWord, ps) <==> k in NormalizedAll(lower, isWord, ps)
    ensures forall k :: k in IndexMap(lower, isWord, ps) ==>
              IndexMap(lower, isWord, ps)[k] == ps[LastIndexOf(NormalizedAll(lower, isWord, ps), k)]
    decreases |ps|
  {
    IndexMapKeys(lower, isWord, ps);
    if ps != [] {
      var init := ps[..|ps| - 1];
      var q := NormalizeText(lower, isWord, ps[|ps| - 1]);
      var ns := NormalizedAll(lower, isWord, ps);
      var ns0 := NormalizedAll(lower, isWord, init);
      IndexMapMeaning(lower, isWord, init);
      NormalizedInit(lower, isWord, ps);
      forall k | k in IndexMap(lower, isWord, ps)
        ensures IndexMap(lower, isWord, ps)[k] == ps[LastIndexOf(ns, k)]
      {
        if k != q {
          assert ns[|ps| - 1] == q;
          assert ns[..|ps| - 1] == ns0;
          assert LastIndexOf(ns, k) == LastIndexOf(ns0, k);
          assert init[LastIndexOf(ns0, k)] == ps[LastIndexOf(ns0, k)];
        }
      }
    }
  }

  lemma IndexStep(lower: string -> string, isWord: char -> bool, ps: seq<string>, i: nat)
    requires i < |ps|
    ensures NormalizedAll(lower, isWord, ps[..i + 1]) ==
            NormalizedAll(lower, isWord, ps[..i]) + [NormalizeText(lower, isWord, ps[i])]
    ensures IndexMap(lower, isWord, ps[..i + 1]) ==
            IndexMap(lower, isWord, ps[..i])[NormalizeText(lower, isWord, ps[i]) := ps[i]]
  {
    assert ps[..i + 1][..i] == ps[..i];
  }

  /** Filling `normalized_to_original`: `keys` is its key order (first
      insertion) and `index` its contents. */
  method BuildIndex(lower: string -> string, isWord: char -> bool, named: seq<string>)
    returns (keys: seq<string>, index: map<string, string>)
    ensures keys == Dedupe(NormalizedAll(lower, isWord, named))
    ensures index == IndexMap(lower, isWord, named)
  {
    keys, index := [], map[];
    for i := 0 to |named|
      invariant keys == Dedupe(NormalizedAll(lower, isWord, named[..i]))
      invariant index == IndexMap(lower, isWord, named[..i])
      invariant forall k :: k in index <==> k in keys
    {
      var n := NormalizeText(lower, isWord, named[i]);
      IndexStep(lower, isWord, named, i);
      DedupeSnoc(NormalizedAll(lower, isWord, named[..i]), n);
      if n !in index {
        keys := keys + [n];
      }
      index := index[n := named[i]];
    }
    assert named[..|named|] == named;
  }

  /** A similarity percentage: `int(ratio * 100)` with `ratio` in [0, 1]. */
  type Score = x: int | 0 <= x <= 100

  datatype Match = Match(name: string, score: Score)

  /** The `(name, score)` list `_extract_matches` builds. */
  function Scored(score: (string, string) -> Score, requested: string, names: seq<string>): seq<Match> {
    seq(|names|, i requires 0 <= i < |names| => Match(names[i], score(requested, names[i])))
  }

  /** The entries scoring exactly `v`, in their order. */
  function WithScore(ms: seq<Match>, v: int): (r: seq<Match>)
    ensures forall i :: 0 <= i < |r| ==> r[i].score == v && r[i] in ms
    decreases |ms|
  {
    if ms == [] then []
    else (if ms[0].score == v then [ms[0]] else []) + WithScore(ms[1..], v)
  }

  /** The entries scoring at most `v`, in their order. */
  function AtMost(ms: seq<Match>, v: int): seq<Match>
    decreases |ms|
  {
    if ms == [] then []
    else (if ms[0].score <= v then [ms[0]] else []) + AtMost(ms[1..], v)
  }

  /** The entries scoring `v`, then those scoring `v - 1`, down to 0. */
  function Buckets(ms: seq<Match>, v: int): (r: seq<Match>)
    ensures forall i :: 0 <= i < |r| ==> r[i].score <= v && r[i] in ms
    ensures forall i, j :: 0 <= i < j < |r| ==> r[i].score >= r[j].score
    decreases v + 1
  {
    if v < 0 then []
    else
      var w := WithScore(ms, v);
      var b := Buckets(ms, v - 1);
      assert forall i :: 0 <= i < |w| ==> w[i].score == v;
      w + b
  }

  /** `sort(key=score, reverse=True)`. Python's sort stays stable when
      reversed, so entries with equal scores keep their order: with scores
      from 0 to 100 that is the entries scoring 100, then 99, and so on. */
  function SortByScore(ms: seq<Match>): (r: seq<Match>)
    ensures forall i, j :: 0 <= i < j < |r| ==> r[i].score >= r[j].score
  {
    Buckets(ms, 100)
  }

  lemma {:induction false} SplitAtMost(ms: seq<Match>, v: int)
    ensures multiset(AtMost(ms, v)) == multiset(WithScore(ms, v)) + multiset(AtMost(ms, v - 1))
    decreases |ms|
  {
    if ms != [] {
      SplitAtMost(ms[1..], v);
    }
  }

  lemma {:induction false} AtMostBounds(ms: seq<Match>)
    ensures AtMost(ms, 100) == ms && AtMost(ms, -1) == []
    decreases |ms|
  {
    if ms != [] {
      AtMostBounds(ms[1..]);
    }
  }

  lemma {:induction false} BucketsMultiset(ms: seq<Match>, v: int)
    requires v >= -1
    ensures multiset(Buckets(ms, v)) == multiset(AtMost(ms, v))
    decreases v + 1
  {
    if v < 0 {
      AtMostBounds(ms);
    } else {
      BucketsMultiset(ms, v - 1);
      SplitAtMost(ms, v);
    }
  }

  /** The sort is a permutation. */
  lemma SortByScorePermutation(ms: seq<Match>)
    ensures multiset(SortByScore(ms)) == multiset(ms)
  {
    BucketsMultiset(ms, 100);
    AtMostBounds(ms);
  }

  lemma {:induction false} WithScoreAppend(a: seq<Match>, b: seq<Match>, v: int)
    ensures WithScore(a + b, v) == WithScore(a, v) + WithScore(b, v)
    decreases |a|
  {
    if a != [] {
      assert (a + b)[0] == a[0];
      assert (a + b)[1..] == a[1..] + b;
      WithScoreAppend(a[1..], b, v);
      var head := if a[0].score == v then [a[0]] else [];
      assert WithScore(a + b, v) == head + (WithScore(a[1..], v) + WithScore(b, v));
      assert WithScore(a, v) == head + WithScore(a[1..], v);
    } else {
      assert a + b == b;
    }
  }

  lemma {:induction false} WithScoreTwice(ms: seq<Match>, u: int, v: int)
    ensures WithScore(WithScore(ms, u), v) == if u == v then WithScore(ms, u) else []
    decreases |ms|
  {
    if ms != [] {
      WithScoreTwice(ms[1..], u, v);
      var head := if ms[0].score == u then [ms[0]] else [];
      WithScoreAppend(head, WithScore(ms[1..], u), v);
    }
  }

  lemma {:induction false} WithScoreOutOfRange(ms: seq<Match>, v: int)
    requires v < 0 || v > 100
    ensures WithScore(ms, v) == []
    decreases |ms|
  {
    if ms != [] {
      WithScoreOutOfRange(ms[1..], v);
    }
  }

  lemma {:induction false} WithScoreBuckets(ms: seq<Match>, u: int, v: int)
    ensures v <= u ==> WithScore(Buckets(ms, u), v) == WithScore(ms, v)
    ensures v > u ==> WithScore(Buckets(ms, u), v) == []
    decreases u + 1
  {
    if u < 0 {
      if v <= u {
        WithScoreOutOfRange(ms, v);
      }
    } else {
      var w := WithScore(ms, u);
      var b := Buckets(ms, u - 1);
      assert Buckets(ms, u) == w + b;
      WithScoreBuckets(ms, u - 1, v);
      WithScoreAppend(w, b, v);
      WithScoreTwice(ms, u, v);
      if v == u {
        assert WithScore(b, v) == [];
      }
    }
  }

  /** The sort is stable: the entries of any one score keep their order. */
  lemma SortByScoreStable(ms: seq<Match>, v: int)
    ensures WithScore(SortByScore(ms), v) == WithScore(ms, v)
  {
    WithScoreBuckets(ms, 100, v);
    if v > 100 {
      WithScoreOutOfRange(ms, v);
    }
  }

  /** `scored[:limit]`, with Python's reading of a negative bound. */
  function PyPrefix(ms: seq<Match>, limit: int): seq<Match> {
    if limit >= 0 then (if limit < |ms| then ms[..limit] else ms)
    else if |ms| + limit > 0 then ms[..|ms| + limit] else []
  }

  /** `_extract_matches`. */
  function ExtractMatches(score: (string, string) -> Score, requested: string, names: seq<string>,
                          limit: int): seq<Match>
  {
    PyPrefix(SortByScore(Scored(score, requested, names)), limit)
  }

  /** The sort keeps every entry, and nothing else. */
  lemma SortKeepsEntries(ms: seq<Match>)
    ensures |SortByScore(ms)| == |ms|
    ensures forall i :: 0 <= i < |SortByScore(ms)| ==> SortByScore(ms)[i] in ms
    ensures forall i :: 0 <= i < |ms| ==> ms[i] in SortByScore(ms)
  {
    var s := SortByScore(ms);
    SortByScorePermutation(ms);
    assert |multiset(s)| == |multiset(ms)|;
    forall i | 0 <= i < |ms| ensures ms[i] in s {
      assert ms[i] in multiset(ms);
    }
  }

  /** A prefix of a descending list holds its maximum, and what it leaves
      out scores no more than its last entry. */
  lemma PrefixTop(s: seq<Match>, limit: int, r: seq<Match>)
    requires forall i, j :: 0 <= i < j < |s| ==> s[i].score >= s[j].score
    requires r == PyPrefix(s, limit)
    ensures |r| == (if limit >= 0 then (if limit < |s| then limit else |s|)
                    else if |s| + limit > 0 then |s| + limit else 0)
    ensures forall i :: 0 <= i < |r| ==> r[i] == s[i]
    ensures forall i :: 0 <= i < |s| && |r| > 0 ==> s[i].score <= r[0].score
    ensures forall i :: 0 <= i < |s| && |r| > 0 && s[i] !in r ==> s[i].score <= r[|r| - 1].score
  {
    assert forall k :: 0 <= k < |r| ==> s[k] in r;
  }

  /** At most `limit` matches (for a non-negative limit), best first, each
      the real score of a listed name. */
  lemma ExtractMatchesShape(score: (string, string) -> Score, requested: string, names: seq<string>, limit: int,
                            r: seq<Match>)
    requires r == ExtractMatches(score, requested, names, limit)
    ensures |r| == (if limit >= 0 then (if limit < |names| then limit else |names|)
                    else if |names| + limit > 0 then |names| + limit else 0)
    ensures forall i, j :: 0 <= i < j < |r| ==> r[i].score >= r[j].score
    ensures forall i :: 0 <= i < |r| ==> r[i].name in names && r[i].score == score(requested, r[i].name)
  {
    var sc := Scored(score, requested, names);
    var s := SortByScore(sc);
    SortKeepsEntries(sc);
    PrefixTop(s, limit, r);
    forall i | 0 <= i < |r| ensures r[i].name in names && r[i].score == score(requested, r[i].name) {
      assert r[i] == s[i] && s[i] in sc;
      var k :| 0 <= k < |sc| && sc[k] == r[i];
    }
  }

  /** The first match is the best of all names, and a name left out scores
      no more than the last match kept. */
  lemma ExtractMatchesBest(score: (string, string) -> Score, requested: string, names: seq<string>, limit: int,
                           r: seq<Match>)
    requires r == ExtractMatches(score, requested, names, limit)
    ensures forall i :: 0 <= i < |names| && |r| > 0 ==> score(requested, names[i]) <= r[0].score
    ensures forall i :: 0 <= i < |names| && |r| > 0 && Match(names[i], score(requested, names[i])) !in r ==>
              score(requested, names[i]) <= r[|r| - 1].score
  {
    var sc := Scored(score, requested, names);
    var s := SortByScore(sc);
    SortKeepsEntries(sc);
    PrefixTop(s, limit, r);
    forall i | 0 <= i < |names| && |r| > 0
      ensures score(requested, names[i]) <= r[0].score
      ensures Match(names[i], score(requested, names[i])) !in r ==> score(requested, names[i]) <= r[|r| - 1].score
    {
      assert sc[i] == Match(names[i], score(requested, names[i]));
      var j :| 0 <= j < |s| && s[j] == sc[i];
    }
  }

  datatype ParserConfig = ParserConfig(confidenceThreshold: int, ambiguityDelta: int, maxAmbiguousCandidates: int)

  /** `ParserConfig()`. */
  const DefaultConfig: ParserConfig := ParserConfig(80, 5, 3)

  datatype ParseStatus = Recognized | UnknownCommand | EmptyName | PlayerNotFound | AmbiguousName

  /** A candidate as the response lists it: the roster spelling and the
      score. */
  datatype Candidate = Candidate(playerName: string, confidence: int)

  /** The dictionary `_match_player` returns. */
  datatype PlayerMatch = PlayerMatch(status: ParseStatus, playerName: Option<string>, confidence: Option<int>,
                                     candidates: seq<Candidate>, error: Option<string>)

  const UnknownCommandError: string := "Команда не распознана"
  const EmptyNameError: string := "Имя игрока не указано"
  const EmptyRosterError: string := "Список игроков пуст"
  const NoMatchError: string := "Игрок не найден"
  const LowConfidenceError: string := "Недостаточная уверенность в совпадении"
  const AmbiguousError: string := "Найдено несколько похожих игроков"

  /** `_build_candidates` and the candidate list of the ambiguous case. */
  function Candidates(ms: seq<Match>, index: map<string, string>): seq<Candidate>
    requires forall i :: 0 <= i < |ms| ==> ms[i].name in index
  {
    seq(|ms|, i requires 0 <= i < |ms| => Candidate(index[ms[i].name], ms[i].score))
  }

  /** The matches at or above the threshold and within `delta` of the best
      score, in their order. */
  function WithinReach(ms: seq<Match>, best: int, threshold: int, delta: int): (r: seq<Match>)
    ensures forall m :: m in r <==> m in ms && m.score >= threshold && best - m.score <= delta
    decreases |ms|
  {
    if ms == [] then []
    else
      (if ms[0].score >= threshold && best - ms[0].score <= delta then [ms[0]] else []) +
      WithinReach(ms[1..], best, threshold, delta)
  }

  /** Two qualifying positions make at least two entries. */
  lemma {:induction false} WithinReachTwo(ms: seq<Match>, best: int, threshold: int, delta: int, i: nat, j: nat)
    requires i < j < |ms|
    requires ms[i].score >= threshold && best - ms[i].score <= delta
    requires ms[j].score >= threshold && best - ms[j].score <= delta
    ensures |WithinReach(ms, best, threshold, delta)| >= 2
    decreases i
  {
    if i == 0 {
      assert ms[j] in ms[1..];
    } else {
      WithinReachTwo(ms[1..], best, threshold, delta, i - 1, j - 1);
    }
  }

  /** The decision `_match_player` takes on the sorted, truncated matches. */
  function Decide(config: ParserConfig, matches: seq<Match>, index: map<string, string>): (r: PlayerMatch)
    requires forall i :: 0 <= i < |matches| ==> matches[i].name in index
    ensures r.status == Recognized || r.status == PlayerNotFound || r.status == AmbiguousName
    ensures r.status == Recognized ==> r.playerName.Some? && r.confidence.Some? && r.candidates == [] && r.error.None?
    ensures r.status != Recognized ==> r.playerName.None? && r.confidence.None? && r.error.Some?
  {
    if matches == [] then PlayerMatch(PlayerNotFound, None, None, [], Some(NoMatchError))
    else
      var best := matches[0];
      if best.score < config.confidenceThreshold then
        PlayerMatch(PlayerNotFound, None, None, Candidates(matches, index), Some(LowConfidenceError))
      else
        var close := WithinReach(matches, best.score, config.confidenceThreshold, config.ambiguityDelta);
        if |close| > 1 then
          PlayerMatch(AmbiguousName, None, None, Candidates(close, index), Some(AmbiguousError))
        else PlayerMatch(Recognized, Some(index[best.name]), Some(best.score), [], None)
  }

  /** The normalised names in dictionary order. */
  function KeysOf(lower: string -> string, isWord: char -> bool, players: seq<string>): seq<string> {
    Dedupe(NormalizedAll(lower, isWord, NamedPlayers(players)))
  }

  /** `matches` in `_match_player`. */
  function MatchesOf(lower: string -> string, isWord: char -> bool, score: (string, string) -> Score,
                     config: ParserConfig, requested: string, players: seq<string>): seq<Match>
  {
    ExtractMatches(score, requested, KeysOf(lower, isWord, players), config.maxAmbiguousCandidates)
  }

  /** Every match names a key of `normalized_to_original`. */
  lemma MatchesIndexed(lower: string -> string, isWord: char -> bool, score: (string, string) -> Score,
                       config: ParserConfig, requested: string, named: seq<string>,
                       keys: seq<string>, index: map<string, string>, matches: seq<Match>)
    requires keys == Dedupe(NormalizedAll(lower, isWord, named)) && index == IndexMap(lower, isWord, named)
    requires matches == ExtractMatches(score, requested, keys, config.maxAmbiguousCandidates)
    ensures forall i :: 0 <= i < |matches| ==> matches[i].name in index
  {
    IndexMapMeaning(lower, isWord, named);
    ExtractMatchesShape(score, requested, keys, config.maxAmbiguousCandidates, matches);
  }

  /** What `_match_player` returns. */
  function MatchOf(lower: string -> string, isWord: char -> bool, score: (string, string) -> Score,
                   config: ParserConfig, requested: string, players: seq<string>): (r: PlayerMatch)
    ensures NamedPlayers(players) == [] ==> r == PlayerMatch(PlayerNotFound, None, None, [], Some(EmptyRosterError))
    ensures r.status == Recognized || r.status == PlayerNotFound || r.status == AmbiguousName
    ensures r.status == Recognized ==> r.playerName.Some? && r.confidence.Some? && r.candidates == [] && r.error.None?
    ensures r.status != Recognized ==> r.playerName.None? && r.confidence.None? && r.error.Some?
  {
    var named := NamedPlayers(players);
    if named == [] then PlayerMatch(PlayerNotFound, None, None, [], Some(EmptyRosterError))
    else
      MatchesIndexed(lower, isWord, score, config, requested, named, KeysOf(lower, isWord, players),
                     IndexMap(lower, isWord, named), MatchesOf(lower, isWord, score, config, requested, players));
      Decide(config, MatchesOf(lower, isWord, score, config, requested, players), IndexMap(lower, isWord, named))
  }

  /** `_match_player`. */
  method MatchPlayer(lower: string -> string, isWord: char -> bool, score: (string, string) -> Score,
                     config: ParserConfig, requested: string, players: seq<string>) returns (r: PlayerMatch)
    ensures r == MatchOf(lower, isWord, score, config, requested, players)
  {
    var named := NamedPlayers(players);
    if named == [] {
      return PlayerMatch(PlayerNotFound, None, None, [], Some(EmptyRosterError));
    }
    var keys, index := BuildIndex(lower, isWord, named);
    var matches := ExtractMatches(score, requested, keys, config.maxAmbiguousCandidates);
    MatchesIndexed(lower, isWord, score, config, requested, named, keys, index, matches);
    r := Decide(config, matches, index);
  }

  /** A recognised name is the best match, reaches the threshold, and has
      no rival among the matches at or above the threshold within `delta`. */
  lemma DecideRecognized(config: ParserConfig, ms: seq<Match>, index: map<string, string>)
    requires forall i :: 0 <= i < |ms| ==> ms[i].name in index
    requires forall i, j :: 0 <= i < j < |ms| ==> ms[i].score >= ms[j].score
    requires Decide(config, ms, index).status == Recognized
    ensures |ms| > 0 && Decide(config, ms, index).playerName == Some(index[ms[0].name])
    ensures Decide(config, ms, index).confidence == Some(ms[0].score as int)
    ensures ms[0].score >= config.confidenceThreshold
    ensures forall i :: 1 <= i < |ms| ==>
              ms[i].score < config.confidenceThreshold || ms[0].score - ms[i].score > config.ambiguityDelta
  {
    forall i | 1 <= i < |ms|
      ensures ms[i].score < config.confidenceThreshold || ms[0].score - ms[i].score > config.ambiguityDelta
    {
      if ms[i].score >= config.confidenceThreshold && ms[0].score - ms[i].score <= config.ambiguityDelta {
        WithinReachTwo(ms, ms[0].score, config.confidenceThreshold, config.ambiguityDelta, 0, i);
      }
    }
  }

  /** The roster entry stored under a normalised name is a player with
      that spelling. */
  lemma IndexEntry(lower: string -> string, isWord: char -> bool, named: seq<string>, name: string)
    requires name in IndexMap(lower, isWord, named)
    ensures IndexMap(lower, isWord, named)[name] in named
    ensures NormalizeText(lower, isWord, IndexMap(lower, isWord, named)[name]) == name
  {
    IndexMapMeaning(lower, isWord, named);
  }

  /** The first match scores at least as well as every player considered. */
  lemma NamedBest(lower: string -> string, isWord: char -> bool, score: (string, string) -> Score,
                  requested: string, named: seq<string>, limit: int, ms: seq<Match>)
    requires ms == ExtractMatches(score, requested, Dedupe(NormalizedAll(lower, isWord, named)), limit) && ms != []
    ensures forall q :: q in named ==> score(requested, NormalizeText(lower, isWord, q)) <= ms[0].score
  {
    var keys := Dedupe(NormalizedAll(lower, isWord, named));
    var ns := NormalizedAll(lower, isWord, named);
    ExtractMatchesBest(score, requested, keys, limit, ms);
    forall q | q in named ensures score(requested, NormalizeText(lower, isWord, q)) <= ms[0].score {
      var j :| 0 <= j < |named| && named[j] == q;
      assert ns[j] in keys;
      var i :| 0 <= i < |keys| && keys[i] == ns[j];
    }
  }

  /** `_match_player` reports `PLAYER_NOT_FOUND` exactly when no player is
      left, no match is kept, or the best match is below the threshold. */
  lemma MatchNotFound(lower: string -> string, isWord: char -> bool, score: (string, string) -> Score,
                      config: ParserConfig, requested: string, players: seq<string>)
    ensures var ms := MatchesOf(lower, isWord, score, config, requested, players);
            MatchOf(lower, isWord, score, config, requested, players).status == PlayerNotFound <==>
              NamedPlayers(players) == [] || ms == [] || ms[0].score < config.confidenceThreshold
  {
  }

  /** Below the threshold, `_match_player` lists every kept match under its
      roster spelling. */
  lemma MatchLowConfidence(lower: string -> string, isWord: char -> bool, score: (string, string) -> Score,
                           config: ParserConfig, requested: string, players: seq<string>)
    requires NamedPlayers(players) != []
    requires var ms := MatchesOf(lower, isWord, score, config, requested, players);
             ms != [] && ms[0].score < config.confidenceThreshold
    ensures var ms := MatchesOf(lower, isWord, score, config, requested, players);
            var r := MatchOf(lower, isWord, score, config, requested, players);
            r.error == Some(LowConfidenceError) && |r.candidates| == |ms| &&
            forall i :: 0 <= i < |ms| ==>
              (r.candidates[i].confidence == ms[i].score &&
               r.candidates[i].playerName in NamedPlayers(players) &&
               NormalizeText(lower, isWord, r.candidates[i].playerName) == ms[i].name)
  {
    var named := NamedPlayers(players);
    var ms := MatchesOf(lower, isWord, score, config, requested, players);
    var index := IndexMap(lower, isWord, named);
    MatchesIndexed(lower, isWord, score, config, requested, named, KeysOf(lower, isWord, players), index, ms);
    CandidatesNamed(lower, isWord, named, ms, index, Candidates(ms, index));
  }

  /** Each candidate carries its match's score under the roster spelling
      stored for its normalised name. */
  lemma CandidatesNamed(lower: string -> string, isWord: char -> bool, named: seq<string>, ms: seq<Match>,
                        index: map<string, string>, cs: seq<Candidate>)
    requires index == IndexMap(lower, isWord, named)
    requires forall i :: 0 <= i < |ms| ==> ms[i].name in index
    requires cs == Candidates(ms, index)
    ensures |cs| == |ms|
    ensures forall i :: 0 <= i < |ms| ==>
              (cs[i].confidence == ms[i].score && cs[i].playerName in named &&
               NormalizeText(lower, isWord, cs[i].playerName) == ms[i].name)
  {
    forall i | 0 <= i < |ms|
      ensures cs[i].playerName in named && NormalizeText(lower, isWord, cs[i].playerName) == ms[i].name
    {
      IndexEntry(lower, isWord, named, ms[i].name);
    }
  }

  /** `_match_player` reports `AMBIGUOUS_NAME` exactly when the best match
      reaches the threshold and more than one kept match is at or above
      the threshold within `delta` of it; it lists exactly those. */
  lemma MatchAmbiguous(lower: string -> string, isWord: char -> bool, score: (string, string) -> Score,
                       config: ParserConfig, requested: string, players: seq<string>)
    ensures var ms := MatchesOf(lower, isWord, score, config, requested, players);
            MatchOf(lower, isWord, score, config, requested, players).status == AmbiguousName <==>
              NamedPlayers(players) != [] && ms != [] && ms[0].score >= config.confidenceThreshold &&
              |WithinReach(ms, ms[0].score, config.confidenceThreshold, config.ambiguityDelta)| > 1
    ensures var ms := MatchesOf(lower, isWord, score, config, requested, players);
            var r := MatchOf(lower, isWord, score, config, requested, players);
            r.status == AmbiguousName ==>
              var close := WithinReach(ms, ms[0].score, config.confidenceThreshold, config.ambiguityDelta);
              r.error == Some(AmbiguousError) && |r.candidates| == |close| >= 2 &&
              forall i :: 0 <= i < |close| ==>
                (r.candidates[i].confidence == close[i].score &&
                 close[i] in ms && close[i].score >= config.confidenceThreshold &&
                 ms[0].score - close[i].score <= config.ambiguityDelta)
  {
  }

  /** A recognised player is a non-blank roster entry whose normalised
      spelling is the best match: it reaches the threshold and scores at
      least as well as every other non-blank player. */
  lemma MatchRecognized(lower: string -> string, isWord: char -> bool, score: (string, string) -> Score,
                        config: ParserConfig, requested: string, players: seq<string>)
    requires MatchOf(lower, isWord, score, config, requested, players).status == Recognized
    ensures var r := MatchOf(lower, isWord, score, config, requested, players);
            var p := r.playerName.value;
            var best := score(requested, NormalizeText(lower, isWord, p));
            p in players && Strip(p) != [] && r.confidence == Some(best) &&
            best >= config.confidenceThreshold &&
            forall q :: q in players && Strip(q) != [] ==> score(requested, NormalizeText(lower, isWord, q)) <= best
  {
    var named := NamedPlayers(players);
    var keys := KeysOf(lower, isWord, players);
    var index := IndexMap(lower, isWord, named);
    var ms := MatchesOf(lower, isWord, score, config, requested, players);
    MatchesIndexed(lower, isWord, score, config, requested, named, keys, index, ms);
    ExtractMatchesShape(score, requested, keys, config.maxAmbiguousCandidates, ms);
    DecideRecognized(config, ms, index);
    IndexEntry(lower, isWord, named, ms[0].name);
    NamedBest(lower, isWord, score, requested, named, config.maxAmbiguousCandidates, ms);
  }

  /** Of several players with the same normalised spelling, the last one is
      returned: a later dictionary assignment overwrites an earlier one. */
  lemma MatchRecognizedLast(lower: string -> string, isWord: char -> bool, score: (string, string) -> Score,
                            config: ParserConfig, requested: string, players: seq<string>)
    requires MatchOf(lower, isWord, score, config, requested, players).status == Recognized
    ensures var r := MatchOf(lower, isWord, score, config, requested, players);
            var named := NamedPlayers(players);
            var name := NormalizeText(lower, isWord, r.playerName.value);
            name in NormalizedAll(lower, isWord, named) &&
            r.playerName.value == named[LastIndexOf(NormalizedAll(lower, isWord, named), name)]
  {
    var named := NamedPlayers(players);
    var keys := KeysOf(lower, isWord, players);
    var index := IndexMap(lower, isWord, named);
    var ms := MatchesOf(lower, isWord, score, config, requested, players);
    MatchesIndexed(lower, isWord, score, config, requested, named, keys, index, ms);
    ExtractMatchesShape(score, requested, keys, config.maxAmbiguousCandidates, ms);
    DecideRecognized(config, ms, index);
    IndexEntry(lower, isWord, named, ms[0].name);
    IndexMapMeaning(lower, isWord, named);
  }

  /** A recognised name has no rival: every other kept match is below the
      threshold or more than `delta` behind. */
  lemma MatchRecognizedUnrivalled(lower: string -> string, isWord: char -> bool, score: (string, string) -> Score,
                                  config: ParserConfig, requested: string, players: seq<string>)
    requires MatchOf(lower, isWord, score, config, requested, players).status == Recognized
    ensures var ms := MatchesOf(lower, isWord, score, config, requested, players);
            forall i :: 1 <= i < |ms| ==>
              ms[i].score < config.confidenceThreshold || ms[0].score - ms[i].score > config.ambiguityDelta
  {
    var named := NamedPlayers(players);
    var keys := KeysOf(lower, isWord, players);
    var index := IndexMap(lower, isWord, named);
    var ms := MatchesOf(lower, isWord, score, config, requested, players);
    MatchesIndexed(lower, isWord, score, config, requested, named, keys, index, ms);
    ExtractMatchesShape(score, requested, keys, config.maxAmbiguousCandidates, ms);
    DecideRecognized(config, ms, index);
  }

  // ----- parse and parse_whisper_output -----

  /** The `ParseResult` of a `parse` call. `parse` always sets the raw and
      the normalised text. */
  datatype ParseResult = ParseResult(status: ParseStatus, eventType: Option<EventType>, playerName: Option<string>,
                                     confidence: Option<int>, rawText: string, normalizedText: string,
                                     candidates: seq<Candidate>, error: Option<string>)

  /** What `parse` returns. */
  function ParseOf(lower: string -> string, isWord: char -> bool, score: (string, string) -> Score,
                   config: ParserConfig, text: string, players: seq<string>): (r: ParseResult)
    ensures r.rawText == text && r.normalizedText == NormalizeText(lower, isWord, text)
    ensures var c := ExtractCommand(NormalizeText(lower, isWord, text));
            (r.status == UnknownCommand <==> c.None?) &&
            (c.None? ==> r.eventType.None? && r.error == Some(UnknownCommandError)) &&
            (c.Some? ==> r.eventType == Some(c.value.eventType)) &&
            (c.Some? && c.value.requestedName == [] ==> r.status == EmptyName && r.error == Some(EmptyNameError))
    ensures var c := ExtractCommand(NormalizeText(lower, isWord, text));
            c.Some? && c.value.requestedName != [] ==>
              var m := MatchOf(lower, isWord, score, config, c.value.requestedName, players);
              r.status == m.status && r.playerName == m.playerName && r.confidence == m.confidence &&
              r.candidates == m.candidates && r.error == m.error
  {
    var normalized := NormalizeText(lower, isWord, text);
    match ExtractCommand(normalized)
    case None => ParseResult(UnknownCommand, None, None, None, text, normalized, [], Some(UnknownCommandError))
    case Some(command) =>
      if command.requestedName == [] then
        ParseResult(EmptyName, Some(command.eventType), None, None, text, normalized, [], Some(EmptyNameError))
      else
        var m := MatchOf(lower, isWord, score, config, command.requestedName, players);
        if m.status != Recognized then
          ParseResult(m.status, Some(command.eventType), None, None, text, normalized, m.candidates, m.error)
        else
          ParseResult(Recognized, Some(command.eventType), m.playerName, m.confidence, text, normalized, [], None)
  }

  /** `CommandParser.parse`. */
  method Parse(lower: string -> string, isWord: char -> bool, score: (string, string) -> Score,
               config: ParserConfig, text: string, players: seq<string>) returns (r: ParseResult)
    ensures r == ParseOf(lower, isWord, score, config, text, players)
  {
    var normalized := NormalizeText(lower, isWord, text);
    var command := ExtractCommand(normalized);
    if command.None? {
      return ParseResult(UnknownCommand, None, None, None, text, normalized, [], Some(UnknownCommandError));
    }
    var eventType, requested := command.value.eventType, command.value.requestedName;
    if requested == [] {
      return ParseResult(EmptyName, Some(eventType), None, None, text, normalized, [], Some(EmptyNameError));
    }
    var m := MatchPlayer(lower, isWord, score, config, requested, players);
    if m.status != Recognized {
      return ParseResult(m.status, Some(eventType), None, None, text, normalized, m.candidates, m.error);
    }
    return ParseResult(Recognized, Some(eventType), m.playerName, m.confidence, text, normalized, [], None);
  }

  /** What `parse_whisper_output` accepts: a plain string, a dictionary
      (its `"text"` and `"transcript"` entries, absent or a string), or
      anything else. */
  datatype Payload = PlainText(content: string) | Transcript(textEntry: Option<string>, transcriptEntry: Option<string>) | Unsupported

  /** `payload.get("text") or payload.get("transcript") or ""`: the first
      entry that is present and not empty. */
  function PayloadText(payload: Payload): (r: string)
    ensures payload.PlainText? ==> r == payload.content
    ensures payload.Transcript? && payload.textEntry.Some? && payload.textEntry.value != [] ==>
              r == payload.textEntry.value
    ensures payload.Transcript? && !(payload.textEntry.Some? && payload.textEntry.value != []) ==>
              r == if payload.transcriptEntry.Some? then payload.transcriptEntry.value else []
    ensures payload.Unsupported? ==> r == []
  {
    match payload
    case PlainText(t) => t
    case Transcript(t, tr) =>
      if t.Some? && t.value != [] then t.value
      else if tr.Some? && tr.value != [] then tr.value
      else []
    case Unsupported => []
  }

  /** `CommandParser.parse_whisper_output`. */
  method ParseWhisperOutput(lower: string -> string, isWord: char -> bool, score: (string, string) -> Score,
                            config: ParserConfig, payload: Payload, players: seq<string>) returns (r: ParseResult)
    ensures r == ParseOf(lower, isWord, score, config, PayloadText(payload), players)
  {
    r := Parse(lower, isWord, score, config, PayloadText(payload), players);
  }
}
