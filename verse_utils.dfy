/** The catalog queries of src/utils/verseUtils.ts. The catalog itself (src/data/verses.json)
    is the parameter `verses`, in its stored order. */
module VerseUtils {
  import opened Types
  import opened Text
  import opened Seqs

  // ---------------------------------------------------------------- random and daily pick

  /** `getRandomVerse`, with the random draw `Math.floor(Math.random() * length)` passed in. */
  function RandomVerse(verses: seq<Verse>, index: nat): (r: Verse)
    requires index < |verses|
    ensures r in verses
  {
    verses[index]
  }

  /** `getDailyVerse`, with the day-of-year ordinal passed in. */
  function DailyVerse(verses: seq<Verse>, dayOfYear: nat): (r: Verse)
    requires |verses| > 0
    ensures r in verses
    ensures r == RandomVerse(verses, dayOfYear % |verses|)
  {
    verses[dayOfYear % |verses|]
  }

  lemma {:induction false} MulAtLeast(a: nat, n: nat)
    requires a >= 1
    ensures a * n >= n
  {
    if a > 1 {
      MulAtLeast(a - 1, n);
      assert a * n == (a - 1) * n + n;
    }
  }

  /** Euclidean division has one quotient and one remainder. */
  lemma ModUnique(x: nat, n: nat, q: nat, r: nat)
    requires r < n && x == q * n + r
    ensures x % n == r
  {
    var q2, r2 := x / n, x % n;
    assert x == q2 * n + r2;
    assert (q - q2) * n == r2 - r;
    assert (q2 - q) * n == r - r2;
    if q > q2 {
      MulAtLeast(q - q2, n);
    } else if q < q2 {
      MulAtLeast(q2 - q, n);
    }
  }

  /** The daily pick cycles through the catalog: every verse is the verse of the day exactly
      on the days whose ordinal is its index modulo the catalog size, so any `|verses|`
      consecutive days show every verse. */
  lemma {:induction false} DailyRotationCovers(verses: seq<Verse>, start: nat, i: nat)
    requires i < |verses|
    ensures exists d: nat :: start <= d < start + |verses| && d % |verses| == i && DailyVerse(verses, d) == verses[i]
  {
    var n := |verses|;
    var q, r := start / n, start % n;
    assert start == q * n + r;
    var d: nat;
    if r <= i {
      d := q * n + i;
      ModUnique(d, n, q, i);
    } else {
      d := (q + 1) * n + i;
      assert (q + 1) * n == q * n + n;
      ModUnique(d, n, q + 1, i);
    }
    assert start <= d < start + n;
    assert DailyVerse(verses, d) == verses[i];
  }

  // ---------------------------------------------------------------- tag filter and search

  /** `verse.tags.some(t => t.toLowerCase() === tag.toLowerCase())`. */
  predicate HasTag(v: Verse, tag: string)
  {
    exists t :: t in v.tags && Lower(t) == Lower(tag)
  }

  /** `getVersesByTag`: the verses carrying `tag` up to case, in catalog order. */
  function VersesByTag(verses: seq<Verse>, tag: string): (r: seq<Verse>)
    ensures Subsequence(r, verses)
    ensures forall v :: v in r <==> v in verses && HasTag(v, tag)
    ensures forall v :: v in verses && HasTag(v, tag) ==> multiset(r)[v] == multiset(verses)[v]
  {
    var keep := v => HasTag(v, tag);
    assert forall v :: v in Filter(keep, verses) <==> v in verses && HasTag(v, tag) by {
      forall v ensures v in Filter(keep, verses) <==> v in verses && keep(v) {
        FilterMembership(keep, verses, v);
      }
    }
    Filter(keep, verses)
  }

  /** The condition of `searchVerses`: the lower-cased query occurs in a lower-cased tag, in
      the English text or in the reflection. */
  predicate MatchesQuery(v: Verse, lowerQuery: string)
  {
    || (exists t :: t in v.tags && Includes(Lower(t), lowerQuery))
    || Includes(Lower(v.english), lowerQuery)
    || Includes(Lower(v.reflection), lowerQuery)
  }

  /** `searchVerses`: the verses matching the query, in catalog order. */
  function SearchVerses(verses: seq<Verse>, query: string): (r: seq<Verse>)
    ensures Subsequence(r, verses)
    ensures forall v :: v in r <==> v in verses && MatchesQuery(v, Lower(query))
    ensures forall v :: v in verses && MatchesQuery(v, Lower(query)) ==> multiset(r)[v] == multiset(verses)[v]
  {
    var keep := v => MatchesQuery(v, Lower(query));
    assert forall v :: v in Filter(keep, verses) <==> v in verses && MatchesQuery(v, Lower(query)) by {
      forall v ensures v in Filter(keep, verses) <==> v in verses && keep(v) {
        FilterMembership(keep, verses, v);
      }
    }
    Filter(keep, verses)
  }

  /** Tag lookup does not depend on the case of the query. */
  lemma HasTagIgnoresCase(v: Verse, tag: string)
    ensures HasTag(v, Lower(tag)) <==> HasTag(v, tag)
  {
    LowerIdempotent(tag);
  }

  /** Every verse found by tag is also found by searching for the same text: a tag equal to
      the query up to case contains it. */
  lemma TagResultsAreSearchResults(verses: seq<Verse>, tag: string)
    ensures forall v :: v in VersesByTag(verses, tag) ==> v in SearchVerses(verses, tag)
  {
    forall v | v in VersesByTag(verses, tag)
      ensures v in SearchVerses(verses, tag)
    {
      var t :| t in v.tags && Lower(t) == Lower(tag);
      assert Includes(Lower(t), Lower(tag)) by {
        assert Lower(tag) <= Lower(t);
      }
    }
  }

  /** An empty query is found everywhere, so it keeps the whole catalog in order. */
  lemma EmptySearchKeepsAll(verses: seq<Verse>)
    ensures SearchVerses(verses, "") == verses
  {
    var keep := v => MatchesQuery(v, Lower(""));
    forall v | v in verses ensures keep(v) {
      IncludesEmpty(Lower(v.english));
    }
    FilterKeepsAll(keep, verses);
  }

  // ---------------------------------------------------------------- all tags

  /** Every tag of every verse, with its case as stored. */
  ghost function TagUnion(verses: seq<Verse>): set<string>
  {
    if verses == [] then {}
    else TagUnion(verses[..|verses| - 1]) + TagsOf(verses[|verses| - 1])
  }

  ghost function TagsOf(v: Verse): set<string>
  {
    set t | t in v.tags
  }

  lemma {:induction false} TagUnionIff(verses: seq<Verse>, t: string)
    ensures t in TagUnion(verses) <==> exists i :: 0 <= i < |verses| && t in verses[i].tags
  {
    if verses != [] {
      var init := verses[..|verses| - 1];
      TagUnionIff(init, t);
      assert forall i :: 0 <= i < |init| ==> init[i] == verses[i];
    }
  }

  /** `getAllTags`: the distinct tags of the catalog, sorted, each once. The JavaScript `Set`
      is the insertion-ordered, duplicate-free `tagSet`. */
  method GetAllTags(verses: seq<Verse>) returns (r: seq<string>)
    ensures StrictlySorted(r)
    ensures forall i, j :: 0 <= i < j < |r| ==> r[i] != r[j]
    ensures forall t :: t in r <==> t in TagUnion(verses)
  {
    var tagSet: seq<string> := [];
    for i := 0 to |verses|
      invariant forall t :: t in tagSet <==> t in TagUnion(verses[..i])
      invariant forall a, b :: 0 <= a < b < |tagSet| ==> tagSet[a] != tagSet[b]
    {
      var tags := verses[i].tags;
      for j := 0 to |tags|
        invariant forall t :: t in tagSet <==> t in TagUnion(verses[..i]) || t in tags[..j]
        invariant forall a, b :: 0 <= a < b < |tagSet| ==> tagSet[a] != tagSet[b]
      {
        assert tags[..j + 1] == tags[..j] + [tags[j]];
        if tags[j] !in tagSet {
          tagSet := tagSet + [tags[j]];
        }
      }
      assert tags[..|tags|] == tags;
      assert verses[..i + 1][..i] == verses[..i];
    }
    assert verses[..|verses|] == verses;
    r := SortStrings(tagSet);
    StrictlySortedDistinct(r);
  }

  // ---------------------------------------------------------------- lookup by id

  /** Position of the first verse with id `id`, or `|verses|` when there is none. */
  function IndexOfId(verses: seq<Verse>, id: string): (k: nat)
    ensures k <= |verses|
    ensures k < |verses| ==> verses[k].id == id
    ensures forall j :: 0 <= j < k ==> verses[j].id != id
  {
    if verses == [] then 0
    else if verses[0].id == id then 0
    else 1 + IndexOfId(verses[1..], id)
  }

  /** `getVerseById`: `verses.find(v => v.id === id)`. */
  function VerseById(verses: seq<Verse>, id: string): (r: Option<Verse>)
    ensures r.None? <==> forall j :: 0 <= j < |verses| ==> verses[j].id != id
    ensures r.Some? ==> r.value in verses && r.value.id == id
    ensures r.Some? ==> r.value == verses[IndexOfId(verses, id)]
  {
    var k := IndexOfId(verses, id);
    if k < |verses| then Some(verses[k]) else None
  }

  /** Ids are unique across the catalog. */
  ghost predicate UniqueIds(verses: seq<Verse>)
  {
    forall i, j :: 0 <= i < j < |verses| ==> verses[i].id != verses[j].id
  }

  /** In a catalog with unique ids, looking a verse up by its own id gives it back. */
  lemma VerseByIdOfMember(verses: seq<Verse>, i: nat)
    requires UniqueIds(verses) && i < |verses|
    ensures VerseById(verses, verses[i].id) == Some(verses[i])
  {
    var k := IndexOfId(verses, verses[i].id);
    assert k == i;
  }

  // ---------------------------------------------------------------- keyword matcher

  /** The number of tags that contain `keyword` once lower-cased. */
  function TagHits(tags: seq<string>, keyword: string): (n: nat)
    ensures n <= |tags|
  {
    if tags == [] then 0
    else TagHits(tags[..|tags| - 1], keyword) + (if Includes(Lower(tags[|tags| - 1]), keyword) then 1 else 0)
  }

  /** The tag count is the length of the tags kept by filtering on containment. */
  lemma {:induction false} TagHitsCounts(tags: seq<string>, keyword: string)
    ensures TagHits(tags, keyword) == |Filter(t => Includes(Lower(t), keyword), tags)|
  {
    if tags != [] {
      var contains := t => Includes(Lower(t), keyword);
      var init, last := tags[..|tags| - 1], tags[|tags| - 1];
      assert tags == init + [last];
      TagHitsCounts(init, keyword);
      FilterConcat(contains, init, [last]);
      assert |Filter(contains, [last])| == if contains(last) then 1 else 0 by {
        assert [last][1..] == [];
      }
    }
  }

  /** Some tag counts exactly when some tag contains the keyword. */
  lemma TagHitsPositive(tags: seq<string>, keyword: string)
    ensures TagHits(tags, keyword) > 0 <==> exists t :: t in tags && Includes(Lower(t), keyword)
  {
    var contains := t => Includes(Lower(t), keyword);
    TagHitsCounts(tags, keyword);
    var kept := Filter(contains, tags);
    if kept != [] {
      assert kept[0] in kept;
    }
    forall t | t in tags && Includes(Lower(t), keyword) ensures t in kept {
      FilterMembership(contains, tags, t);
    }
  }

  /** Keywords longer than three characters are the only ones that count. */
  predicate Counted(keyword: string)
  {
    |keyword| > 3
  }

  /** What one keyword adds to a verse's score: nothing when it has three characters or
      fewer; otherwise 2 per tag containing it, 1 for the reflection, 1 for the English text. */
  function KeywordScore(v: Verse, keyword: string): nat
  {
    if Counted(keyword) then
      2 * TagHits(v.tags, keyword)
      + (if Includes(Lower(v.reflection), keyword) then 1 else 0)
      + (if Includes(Lower(v.english), keyword) then 1 else 0)
    else 0
  }

  /** A keyword adds nothing unless it is counted, adds at least 2 when a tag contains it,
      adds at most 2 per tag plus 2, and adds something only when it occurs in a tag, the
      reflection or the English text. */
  lemma KeywordScoreBounds(v: Verse, keyword: string)
    ensures !Counted(keyword) ==> KeywordScore(v, keyword) == 0
    ensures KeywordScore(v, keyword) <= 2 * |v.tags| + 2
    ensures Counted(keyword) && (exists t :: t in v.tags && Includes(Lower(t), keyword)) ==> KeywordScore(v, keyword) >= 2
    ensures KeywordScore(v, keyword) > 0 ==>
      && Counted(keyword)
      && (|| (exists t :: t in v.tags && Includes(Lower(t), keyword))
          || Includes(Lower(v.reflection), keyword)
          || Includes(Lower(v.english), keyword))
  {
    TagHitsPositive(v.tags, keyword);
  }

  /** The score of a verse: the sum of what each keyword adds, in keyword order. */
  function Score(v: Verse, keywords: seq<string>): nat
  {
    if keywords == [] then 0
    else Score(v, keywords[..|keywords| - 1]) + KeywordScore(v, keywords[|keywords| - 1])
  }

  /** A verse scores above 0 exactly when some keyword adds to it; in particular a question
      whose keywords are all too short scores 0. */
  lemma {:induction false} ScorePositive(v: Verse, keywords: seq<string>)
    ensures Score(v, keywords) > 0 <==> exists k :: k in keywords && KeywordScore(v, k) > 0
    ensures (forall k :: k in keywords ==> !Counted(k)) ==> Score(v, keywords) == 0
  {
    if keywords != [] {
      var init := keywords[..|keywords| - 1];
      assert keywords == init + [keywords[|keywords| - 1]];
      ScorePositive(v, init);
    }
  }

  /** Scores add up keyword by keyword from the front as well. */
  lemma {:induction false} ScoreCons(v: Verse, k: string, keywords: seq<string>)
    ensures Score(v, [k] + keywords) == KeywordScore(v, k) + Score(v, keywords)
    decreases |keywords|
  {
    if keywords != [] {
      var all := [k] + keywords;
      assert all[..|all| - 1] == [k] + keywords[..|keywords| - 1];
      ScoreCons(v, k, keywords[..|keywords| - 1]);
    } else {
      assert ([k] + keywords)[..0] == [];
    }
  }

  /** The keywords of a question: the lower-cased question split on single spaces. */
  function Keywords(question: string): (ks: seq<string>)
    ensures |ks| >= 1
    ensures forall k :: k in ks ==> ' ' !in k
    ensures Join(ks, ' ') == Lower(question)
  {
    JoinSplit(Lower(question), ' ');
    Split(Lower(question), ' ')
  }

  /** Keywords of three characters or fewer do not change any score. */
  lemma {:induction false} ShortKeywordsIgnored(v: Verse, keywords: seq<string>)
    ensures Score(v, keywords) == Score(v, Filter(Counted, keywords))
  {
    if keywords != [] {
      var init, last := keywords[..|keywords| - 1], keywords[|keywords| - 1];
      assert keywords == init + [last];
      ShortKeywordsIgnored(v, init);
      FilterConcat(Counted, init, [last]);
      var kept := Filter(Counted, init);
      assert Filter(Counted, [last]) == if Counted(last) then [last] else [] by {
        assert [last][1..] == [];
      }
      if Counted(last) {
        assert (kept + [last])[..|kept|] == kept;
      } else {
        assert kept + [] == kept;
      }
    }
  }

  /** The index the scan of `getAIResponse` holds after the first `n` verses: the earliest
      verse with the highest positive score, or none when every score so far is 0. */
  function Leader(verses: seq<Verse>, keywords: seq<string>, n: nat): (r: Option<nat>)
    requires n <= |verses|
    ensures r.Some? ==> r.value < n && Score(verses[r.value], keywords) > 0
    ensures r.Some? ==> forall j :: 0 <= j < n ==> Score(verses[j], keywords) <= Score(verses[r.value], keywords)
    ensures r.Some? ==> forall j :: 0 <= j < r.value ==> Score(verses[j], keywords) < Score(verses[r.value], keywords)
    ensures r.None? <==> forall j :: 0 <= j < n ==> Score(verses[j], keywords) == 0
  {
    if n == 0 then None
    else
      var prev := Leader(verses, keywords, n - 1);
      if Score(verses[n - 1], keywords) > LeaderScore(verses, keywords, prev) then Some(n - 1) else prev
  }

  /** `bestScore`: the score of the leader, 0 when there is none. */
  function LeaderScore(verses: seq<Verse>, keywords: seq<string>, leader: Option<nat>): nat
    requires leader.Some? ==> leader.value < |verses|
  {
    if leader.Some? then Score(verses[leader.value], keywords) else 0
  }

  /** What `getAIResponse(question)` returns, with the fallback draw passed in. */
  function Response(verses: seq<Verse>, question: string, randomIndex: nat): (r: Verse)
    requires randomIndex < |verses|
    ensures r in verses
  {
    match Leader(verses, Keywords(question), |verses|)
    case Some(k) => verses[k]
    case None => RandomVerse(verses, randomIndex)
  }

  /** A question without any keyword longer than three characters (the empty question
      among them) scores 0 everywhere and falls back to the random verse. */
  lemma {:induction false} NoLongKeywordFallsBack(verses: seq<Verse>, question: string, randomIndex: nat)
    requires randomIndex < |verses|
    requires forall k :: k in Keywords(question) ==> |k| <= 3
    ensures Response(verses, question, randomIndex) == verses[randomIndex]
  {
    var keywords := Keywords(question);
    forall j | 0 <= j < |verses| ensures Score(verses[j], keywords) == 0 {
      ShortKeywordsIgnored(verses[j], keywords);
      FilterKeepsNone(Counted, keywords);
    }
  }

  lemma EmptyQuestionFallsBack(verses: seq<Verse>, randomIndex: nat)
    requires randomIndex < |verses|
    ensures Response(verses, "", randomIndex) == verses[randomIndex]
  {
    assert Keywords("") == [""];
    NoLongKeywordFallsBack(verses, "", randomIndex);
  }

  /** `getAIResponse`: scores every verse keyword by keyword and tag by tag, keeps the first
      verse whose score beats every earlier one, and falls back to a random verse. */
  method GetAIResponse(verses: seq<Verse>, question: string, randomIndex: nat) returns (r: Verse)
    requires randomIndex < |verses|
    ensures r == Response(verses, question, randomIndex)
  {
    var keywords := Split(Lower(question), ' ');
    var bestMatch: Option<Verse> := None;
    var bestScore: nat := 0;
    for i := 0 to |verses|
      invariant bestScore == LeaderScore(verses, keywords, Leader(verses, keywords, i))
      invariant bestMatch.None? <==> Leader(verses, keywords, i).None?
      invariant bestMatch.Some? ==> bestMatch.value == verses[Leader(verses, keywords, i).value]
    {
      var verse := verses[i];
      var score: nat := 0;
      for k := 0 to |keywords|
        invariant score == Score(verse, keywords[..k])
      {
        var keyword := keywords[k];
        assert keywords[..k + 1][..k] == keywords[..k];
        if |keyword| > 3 {
          for t := 0 to |verse.tags|
            invariant score == Score(verse, keywords[..k]) + 2 * TagHits(verse.tags[..t], keyword)
          {
            assert verse.tags[..t + 1][..t] == verse.tags[..t];
            if Includes(Lower(verse.tags[t]), keyword) {
              score := score + 2;
            }
          }
          assert verse.tags[..|verse.tags|] == verse.tags;
          if Includes(Lower(verse.reflection), keyword) {
            score := score + 1;
          }
          if Includes(Lower(verse.english), keyword) {
            score := score + 1;
          }
        }
      }
      assert keywords[..|keywords|] == keywords;
      if score > bestScore {
        bestScore := score;
        bestMatch := Some(verse);
      }
    }
    r := if bestMatch.Some? then bestMatch.value else RandomVerse(verses, randomIndex);
  }
}
