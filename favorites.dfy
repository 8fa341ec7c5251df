/** The favourites store of src/contexts/FavoritesContext.tsx: an in-memory list of saved
    verses, most recent first, mirrored into the key-value record `favorites`. */
module Favorites {
  import opened Types
  import opened Seqs

  /** `favorites.some(f => f.id === id)`. */
  function Saved(favorites: seq<FavoriteVerse>, id: string): (b: bool)
    ensures b <==> exists i :: 0 <= i < |favorites| && favorites[i].Id() == id
  {
    if favorites == [] then false
    else favorites[0].Id() == id || Saved(favorites[1..], id)
  }

  /** How many entries carry `id`. */
  function CountId(favorites: seq<FavoriteVerse>, id: string): (n: nat)
    ensures n <= |favorites|
    ensures n > 0 <==> Saved(favorites, id)
  {
    if favorites == [] then 0
    else (if favorites[0].Id() == id then 1 else 0) + CountId(favorites[1..], id)
  }

  /** At most one entry per verse id. */
  ghost predicate OnePerId(favorites: seq<FavoriteVerse>)
  {
    forall i, j :: 0 <= i < j < |favorites| ==> favorites[i].Id() != favorites[j].Id()
  }

  /** The list `addFavorite` installs: the new entry first, then the old list unchanged. */
  function Prepended(favorites: seq<FavoriteVerse>, v: Verse, now: nat): (r: seq<FavoriteVerse>)
    ensures |r| == |favorites| + 1
    ensures r[0] == FavoriteVerse(v, now) && r[1..] == favorites
  {
    [FavoriteVerse(v, now)] + favorites
  }

  /** The list `removeFavorite` installs: `favorites.filter(f => f.id !== id)`. */
  function Without(favorites: seq<FavoriteVerse>, id: string): (r: seq<FavoriteVerse>)
    ensures Subsequence(r, favorites)
    ensures forall f :: f in r <==> f in favorites && f.Id() != id
    ensures forall f :: f in favorites && f.Id() != id ==> multiset(r)[f] == multiset(favorites)[f]
  {
    var keep := (f: FavoriteVerse) => f.Id() != id;
    assert forall f :: f in Filter(keep, favorites) <==> f in favorites && f.Id() != id by {
      forall f ensures f in Filter(keep, favorites) <==> f in favorites && keep(f) {
        FilterMembership(keep, favorites, f);
      }
    }
    Filter(keep, favorites)
  }

  /** After an add, the verse is saved; every other id keeps its status. */
  lemma AddMakesSaved(favorites: seq<FavoriteVerse>, v: Verse, now: nat, other: string)
    ensures Saved(Prepended(favorites, v, now), v.id)
    ensures other != v.id ==> Saved(Prepended(favorites, v, now), other) == Saved(favorites, other)
  {
    var r := Prepended(favorites, v, now);
    assert r[0].Id() == v.id;
    if other != v.id && Saved(favorites, other) {
      var i :| 0 <= i < |favorites| && favorites[i].Id() == other;
      assert r[i + 1] == favorites[i];
    }
  }

  /** `addFavorite` does not look for an existing entry: adding a saved verse again leaves
      two entries with its id, so one entry per id is lost. */
  lemma AddKeepsDuplicates(favorites: seq<FavoriteVerse>, v: Verse, now: nat)
    requires Saved(favorites, v.id)
    ensures CountId(Prepended(favorites, v, now), v.id) == CountId(favorites, v.id) + 1 >= 2
    ensures !OnePerId(Prepended(favorites, v, now))
  {
    var r := Prepended(favorites, v, now);
    assert r[1..] == favorites;
    var i :| 0 <= i < |favorites| && favorites[i].Id() == v.id;
    assert r[i + 1] == favorites[i];
  }

  /** Adding a verse that is not saved keeps one entry per id. */
  lemma AddFreshKeepsOnePerId(favorites: seq<FavoriteVerse>, v: Verse, now: nat)
    requires OnePerId(favorites) && !Saved(favorites, v.id)
    ensures OnePerId(Prepended(favorites, v, now))
  {
    var r := Prepended(favorites, v, now);
    forall i, j | 0 <= i < j < |r| ensures r[i].Id() != r[j].Id() {
      assert r[j] == favorites[j - 1];
      if i > 0 {
        assert r[i] == favorites[i - 1];
      }
    }
  }

  /** After a remove, the id is no longer saved; every other id keeps its status. */
  lemma RemoveMakesUnsaved(favorites: seq<FavoriteVerse>, id: string, other: string)
    ensures !Saved(Without(favorites, id), id)
    ensures other != id ==> Saved(Without(favorites, id), other) == Saved(favorites, other)
  {
    var r := Without(favorites, id);
    if other != id && Saved(favorites, other) {
      var i :| 0 <= i < |favorites| && favorites[i].Id() == other;
      assert favorites[i] in r;
    }
  }

  /** Removing an id that is not saved changes nothing. */
  lemma RemoveAbsentIsNoop(favorites: seq<FavoriteVerse>, id: string)
    requires !Saved(favorites, id)
    ensures Without(favorites, id) == favorites
  {
    FilterKeepsAll((f: FavoriteVerse) => f.Id() != id, favorites);
  }

  /** Dropping entries keeps one entry per id. */
  lemma {:induction false} FilterKeepsOnePerId(p: FavoriteVerse -> bool, favorites: seq<FavoriteVerse>)
    requires OnePerId(favorites)
    ensures OnePerId(Filter(p, favorites))
  {
    if favorites != [] {
      var rest := favorites[1..];
      assert OnePerId(rest) by {
        forall i, j | 0 <= i < j < |rest| ensures rest[i].Id() != rest[j].Id() {
          assert rest[i] == favorites[i + 1] && rest[j] == favorites[j + 1];
        }
      }
      FilterKeepsOnePerId(p, rest);
      if p(favorites[0]) {
        var r := Filter(p, favorites);
        var kept := Filter(p, rest);
        assert r == [favorites[0]] + kept;
        forall i, j | 0 <= i < j < |r| ensures r[i].Id() != r[j].Id() {
          assert r[j] == kept[j - 1];
          assert kept[j - 1] in rest;
          var k :| 0 <= k < |rest| && rest[k] == kept[j - 1];
          assert favorites[k + 1] == rest[k];
          if i > 0 {
            assert r[i] == kept[i - 1];
          }
        }
      }
    }
  }

  lemma RemoveKeepsOnePerId(favorites: seq<FavoriteVerse>, id: string)
    requires OnePerId(favorites)
    ensures OnePerId(Without(favorites, id))
  {
    FilterKeepsOnePerId((f: FavoriteVerse) => f.Id() != id, favorites);
  }

  /** The `favorites` record of the key-value storage, as `loadFavorites` sees it: no
      record, an empty string, text that does not parse as a list, or a serialised list. */
  datatype StoredFavorites = Absent | EmptyText | Unparsable | Serialized(entries: seq<FavoriteVerse>)

  /** The list `loadFavorites` leaves in memory after a successful read of `stored`:
      the parsed list, or the current one when there is nothing to parse or parsing fails. */
  function Loaded(current: seq<FavoriteVerse>, stored: StoredFavorites): (r: seq<FavoriteVerse>)
    ensures stored.Serialized? ==> r == stored.entries
    ensures !stored.Serialized? ==> r == current
  {
    match stored
    case Serialized(entries) => entries
    case _ => current
  }

  class FavoritesStore {
    /** The in-memory list, most recently saved first. */
    var favorites: seq<FavoriteVerse>
    /** The `favorites` record of the key-value storage. */
    var stored: StoredFavorites

    /** Memory and storage hold the same list. */
    ghost predicate InSync()
      reads this
    {
      stored == Serialized(favorites)
    }

    /** A fresh provider: an empty list in memory; storage holds whatever it held. */
    constructor (record: StoredFavorites)
      ensures favorites == [] && stored == record
    {
      favorites := [];
      stored := record;
    }

    /** `loadFavorites`. `readOk` is false when the storage read throws; that failure, an
        absent or empty record and a parse failure are all swallowed and leave the list as
        it is. */
    method LoadFavorites(readOk: bool)
      modifies this
      ensures stored == old(stored)
      ensures favorites == if readOk then Loaded(old(favorites), stored) else old(favorites)
    {
      if readOk {
        match stored
        case Serialized(entries) =>
          favorites := entries;
        case _ =>
      }
    }

    /** `saveFavorites`. `writeOk` is false when the storage write throws; the failure is
        swallowed and the record keeps its old value. */
    method SaveFavorites(newFavorites: seq<FavoriteVerse>, writeOk: bool)
      modifies this
      ensures favorites == old(favorites)
      ensures stored == if writeOk then Serialized(newFavorites) else old(stored)
    {
      if writeOk {
        stored := Serialized(newFavorites);
      }
    }

    /** `addFavorite`: the verse stamped `now` goes in front of the old list, with no check
        for an entry that is already there, and the new list is written out. */
    method AddFavorite(v: Verse, now: nat, writeOk: bool)
      modifies this
      ensures favorites == Prepended(old(favorites), v, now)
      ensures stored == if writeOk then Serialized(favorites) else old(stored)
      ensures writeOk ==> InSync()
      ensures IsFavorite(v.id)
    {
      var newFavorites := [FavoriteVerse(v, now)] + favorites;
      favorites := newFavorites;
      SaveFavorites(newFavorites, writeOk);
      AddMakesSaved(old(favorites), v, now, v.id);
    }

    /** `removeFavorite`: every entry with the id goes, the rest keep their order, and the
        new list is written out. */
    method RemoveFavorite(id: string, writeOk: bool)
      modifies this
      ensures favorites == Without(old(favorites), id)
      ensures stored == if writeOk then Serialized(favorites) else old(stored)
      ensures writeOk ==> InSync()
      ensures !IsFavorite(id)
    {
      var newFavorites := Without(favorites, id);
      favorites := newFavorites;
      SaveFavorites(newFavorites, writeOk);
      RemoveMakesUnsaved(old(favorites), id, id);
    }

    /** `isFavorite`: some entry in memory carries the id. */
    function IsFavorite(id: string): (b: bool)
      reads this
      ensures b <==> exists i :: 0 <= i < |favorites| && favorites[i].Id() == id
    {
      Saved(favorites, id)
    }
  }

  /** Adding a favourite and restarting the app: a fresh store loads the list that was
      added when the write succeeded, and the record from before the add when it failed. */
  method AddThenRelaunch(store: FavoritesStore, v: Verse, now: nat, writeOk: bool)
    returns (next: FavoritesStore)
    modifies store
    ensures store.favorites == Prepended(old(store.favorites), v, now)
    ensures fresh(next)
    ensures writeOk ==> next.favorites == store.favorites
    ensures !writeOk ==> next.favorites == Loaded([], old(store.stored))
  {
    store.AddFavorite(v, now, writeOk);
    next := new FavoritesStore(store.stored);
    next.LoadFavorites(true);
  }

  /** Removing a favourite and restarting the app: a fresh store loads the list without the
      id when the write succeeded, and the record from before the removal when it failed. */
  method RemoveThenRelaunch(store: FavoritesStore, id: string, writeOk: bool)
    returns (next: FavoritesStore)
    modifies store
    ensures store.favorites == Without(old(store.favorites), id)
    ensures fresh(next)
    ensures writeOk ==> next.favorites == store.favorites && !Saved(next.favorites, id)
    ensures !writeOk ==> next.favorites == Loaded([], old(store.stored))
  {
    store.RemoveFavorite(id, writeOk);
    next := new FavoritesStore(store.stored);
    next.LoadFavorites(true);
  }
}
