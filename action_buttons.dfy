/** The logic of src/components/ActionButtons.tsx: the save toggle and the text a verse is
    shared as. */
module ActionButtons {
  import opened Types
  import opened Text
  import opened Favorites
  import opened Seqs

  // ---------------------------------------------------------------- save toggle

  /** The list `handleSave` leaves: the verse's entries removed when it is saved, the verse
      stamped `now` prepended otherwise. */
  function Toggled(favorites: seq<FavoriteVerse>, v: Verse, now: nat): (r: seq<FavoriteVerse>)
    ensures Saved(favorites, v.id) ==> Subsequence(r, favorites) && |r| < |favorites|
    ensures Saved(favorites, v.id) ==> forall f :: f in r <==> f in favorites && f.Id() != v.id
    ensures Saved(favorites, v.id) ==> forall f :: f in favorites && f.Id() != v.id ==> multiset(r)[f] == multiset(favorites)[f]
    ensures !Saved(favorites, v.id) ==> |r| == |favorites| + 1 && r[0] == FavoriteVerse(v, now) && r[1..] == favorites
  {
    if Saved(favorites, v.id) then
      var i :| 0 <= i < |favorites| && favorites[i].Id() == v.id;
      FilterDropsFailing((f: FavoriteVerse) => f.Id() != v.id, favorites, favorites[i]);
      Without(favorites, v.id)
    else
      Prepended(favorites, v, now)
  }

  /** A press flips the saved state of the verse and of no other id. */
  lemma ToggleFlips(favorites: seq<FavoriteVerse>, v: Verse, now: nat, other: string)
    ensures Saved(Toggled(favorites, v, now), v.id) == !Saved(favorites, v.id)
    ensures other != v.id ==> Saved(Toggled(favorites, v, now), other) == Saved(favorites, other)
  {
    AddMakesSaved(favorites, v, now, other);
    RemoveMakesUnsaved(favorites, v.id, other);
  }

  /** Because the add branch is taken only when the id is absent, a press keeps one entry
      per id. */
  lemma ToggleKeepsOnePerId(favorites: seq<FavoriteVerse>, v: Verse, now: nat)
    requires OnePerId(favorites)
    ensures OnePerId(Toggled(favorites, v, now))
  {
    if Saved(favorites, v.id) {
      RemoveKeepsOnePerId(favorites, v.id);
    } else {
      AddFreshKeepsOnePerId(favorites, v, now);
    }
  }

  /** Saving an unsaved verse and un-saving it again restores the list exactly. */
  lemma ToggleTwiceRestores(favorites: seq<FavoriteVerse>, v: Verse, t1: nat, t2: nat)
    requires !Saved(favorites, v.id)
    ensures Toggled(Toggled(favorites, v, t1), v, t2) == favorites
  {
    var added := Prepended(favorites, v, t1);
    AddMakesSaved(favorites, v, t1, v.id);
    assert Without(added, v.id) == Without(favorites, v.id) by {
      Seqs.FilterConcat((f: FavoriteVerse) => f.Id() != v.id, [FavoriteVerse(v, t1)], favorites);
    }
    RemoveAbsentIsNoop(favorites, v.id);
  }

  /** One press on the save button: which verse, and the clock at that moment. */
  datatype Press = Press(verse: Verse, now: nat)

  /** The list after a series of presses, first press first. */
  function AfterPresses(favorites: seq<FavoriteVerse>, presses: seq<Press>): seq<FavoriteVerse>
    decreases presses
  {
    if presses == [] then favorites
    else AfterPresses(Toggled(favorites, presses[0].verse, presses[0].now), presses[1..])
  }

  /** Any series of presses keeps one entry per id. */
  lemma {:induction false} PressesKeepOnePerId(favorites: seq<FavoriteVerse>, presses: seq<Press>)
    requires OnePerId(favorites)
    ensures OnePerId(AfterPresses(favorites, presses))
    decreases presses
  {
    if presses != [] {
      ToggleKeepsOnePerId(favorites, presses[0].verse, presses[0].now);
      PressesKeepOnePerId(Toggled(favorites, presses[0].verse, presses[0].now), presses[1..]);
    }
  }

  /** How many of the presses are on the verse with `id`. */
  function PressCount(presses: seq<Press>, id: string): (n: nat)
    ensures n <= |presses|
  {
    if presses == [] then 0
    else (if presses[0].verse.id == id then 1 else 0) + PressCount(presses[1..], id)
  }

  /** After a series of presses an id is saved exactly when it started saved and was pressed
      an even number of times, or started unsaved and was pressed an odd number of times. */
  lemma {:induction false} PressesParity(favorites: seq<FavoriteVerse>, presses: seq<Press>, id: string)
    ensures Saved(AfterPresses(favorites, presses), id) <==> (Saved(favorites, id) <==> PressCount(presses, id) % 2 == 0)
    decreases presses
  {
    if presses != [] {
      var p := presses[0];
      var next := Toggled(favorites, p.verse, p.now);
      var rest := PressCount(presses[1..], id);
      ToggleFlips(favorites, p.verse, p.now, id);
      PressesParity(next, presses[1..], id);
      if p.verse.id == id {
        assert PressCount(presses, id) == rest + 1;
        assert Saved(next, id) == !Saved(favorites, id);
        assert (rest + 1) % 2 == 0 <==> rest % 2 != 0;
      } else {
        assert PressCount(presses, id) == rest;
        assert Saved(next, id) == Saved(favorites, id);
      }
    }
  }

  /** `handleSave`, reading `isFavorite(verse.id)` and then removing or adding. */
  method HandleSave(store: FavoritesStore, v: Verse, now: nat, writeOk: bool)
    modifies store
    ensures store.favorites == Toggled(old(store.favorites), v, now)
    ensures store.stored == if writeOk then Serialized(store.favorites) else old(store.stored)
    ensures store.IsFavorite(v.id) == !old(store.IsFavorite(v.id))
    ensures OnePerId(old(store.favorites)) ==> OnePerId(store.favorites)
  {
    ghost var before := store.favorites;
    var isCurrentFavorite := store.IsFavorite(v.id);
    if isCurrentFavorite {
      store.RemoveFavorite(v.id, writeOk);
    } else {
      store.AddFavorite(v, now, writeOk);
    }
    ToggleFlips(before, v, now, v.id);
    if OnePerId(before) {
      ToggleKeepsOnePerId(before, v, now);
    }
  }

  // ---------------------------------------------------------------- share text

  const Header := "\U{1F4FF} Bhagavad Gita "
  const Footer := "\n\n— Shared from Gita Today"

  /** The reference line after the book title: `chapter:verse`. */
  function Reference(v: Verse): string
  {
    Decimal(v.chapter) + ":" + Decimal(v.verse)
  }

  /** The share message: the reference, the quoted Sanskrit, the quoted English, the
      reflection and the signature, separated by blank lines. */
  function ShareMessage(v: Verse): (m: string)
    ensures Header <= m
    ensures |Footer| <= |m| && m[|m| - |Footer|..] == Footer
  {
    var body := Reference(v)
      + "\n\n\"" + v.sanskrit + "\"\n\n\"" + v.english + "\"\n\n\U{1F4AD} " + v.reflection;
    assert (Header + body + Footer)[..|Header|] == Header;
    assert (Header + body + Footer)[|Header + body|..] == Footer;
    Header + body + Footer
  }

  /** Reads chapter and verse back from the head of a share message. */
  function ReadReference(m: string): Option<(nat, nat)>
  {
    if Header <= m then ReadNumbers(m[|Header|..]) else None
  }

  /** Reads `digits:digits` from the front of `s`. */
  function ReadNumbers(s: string): Option<(nat, nat)>
  {
    var a := LeadingDigits(s);
    if a == 0 || a == |s| || s[a] != ':' then None
    else
      var t := s[a + 1..];
      var b := LeadingDigits(t);
      if b == 0 then None
      else Some((DigitsValue(s[..a]), DigitsValue(t[..b])))
  }

  lemma ReadNumbersOf(c: string, n: string, rest: string)
    requires |c| > 0 && forall i :: 0 <= i < |c| ==> IsDigit(c[i])
    requires |n| > 0 && forall i :: 0 <= i < |n| ==> IsDigit(n[i])
    requires rest == [] || !IsDigit(rest[0])
    ensures ReadNumbers(c + ([':'] + (n + rest))) == Some((DigitsValue(c), DigitsValue(n)))
  {
    var t := n + rest;
    var s := c + ([':'] + t);
    LeadingDigitsOf(c, [':'] + t);
    assert s[..|c|] == c;
    assert s[|c| + 1..] == t;
    LeadingDigitsOf(n, rest);
    assert t[..|n|] == n;
  }

  /** The share message names the verse it shares: its reference reads back as the verse's
      chapter and number. */
  lemma ShareMessageNamesVerse(v: Verse)
    ensures ReadReference(ShareMessage(v)) == Some((v.chapter, v.verse))
  {
    var c, n := Decimal(v.chapter), Decimal(v.verse);
    var rest := "\n\n\"" + v.sanskrit + "\"\n\n\"" + v.english + "\"\n\n\U{1F4AD} " + v.reflection + Footer;
    var m := ShareMessage(v);
    assert m == Header + (c + ([':'] + (n + rest)));
    assert m[|Header|..] == c + ([':'] + (n + rest));
    ReadNumbersOf(c, n, rest);
    DecimalRoundTrip(v.chapter);
    DecimalRoundTrip(v.verse);
  }
}
