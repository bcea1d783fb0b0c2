/**
 * The favorites updaters of `src/contexts/MovieContext.tsx`: each is an expression over
 * the previous list (`some`, spread-append, `filter`), so each is a function here.
 */
module Favorites {
  import opened MovieTypes

  /** No two entries of the list share an `id`. */
  predicate UniqueIds(favs: seq<Movie>)
  {
    forall i, j :: 0 <= i < j < |favs| ==> favs[i].id != favs[j].id
  }

  /** `favs.some(m => m.id === id)`: scans left to right. */
  function IsIn(favs: seq<Movie>, id: int): (r: bool)
    ensures r <==> exists i :: 0 <= i < |favs| && favs[i].id == id
  {
    if favs == [] then false
    else if favs[0].id == id then true
    else
      var rest := IsIn(favs[1..], id);
      assert rest ==> exists i :: 0 <= i < |favs| && favs[i].id == id by {
        if rest {
          var i :| 0 <= i < |favs[1..]| && favs[1..][i].id == id;
          assert favs[i + 1].id == id;
        }
      }
      rest
  }

  /** `addToFavorites`: the previous list if the id is present, otherwise the movie appended. */
  function Add(favs: seq<Movie>, movie: Movie): (r: seq<Movie>)
    ensures IsIn(favs, movie.id) ==> r == favs
    ensures !IsIn(favs, movie.id) ==> r == favs + [movie]
    ensures IsIn(r, movie.id)
    ensures forall id :: IsIn(r, id) <==> IsIn(favs, id) || id == movie.id
    ensures UniqueIds(favs) ==> UniqueIds(r)
  {
    if IsIn(favs, movie.id) then favs
    else
      AppendMembership(favs, movie);
      favs + [movie]
  }

  /** After appending, an id is present exactly when it was present before or is the new one's. */
  lemma AppendMembership(favs: seq<Movie>, movie: Movie)
    ensures forall id :: IsIn(favs + [movie], id) <==> IsIn(favs, id) || id == movie.id
  {
    var r := favs + [movie];
    forall id ensures IsIn(r, id) <==> IsIn(favs, id) || id == movie.id {
      if IsIn(favs, id) {
        var k :| 0 <= k < |favs| && favs[k].id == id;
        assert r[k] == favs[k];
      }
      if IsIn(r, id) {
        var k :| 0 <= k < |r| && r[k].id == id;
        if k < |favs| {
          assert favs[k] == r[k];
        }
      }
      assert r[|favs|] == movie;
    }
  }

  /** `a` keeps a selection of the entries of `b`, in the order `b` has them. */
  predicate IsSubsequence(a: seq<Movie>, b: seq<Movie>)
  {
    if a == [] then true
    else if b == [] then false
    else if a[0] == b[0] then IsSubsequence(a[1..], b[1..])
    else IsSubsequence(a, b[1..])
  }

  /** `removeFromFavorites`: `favs.filter(m => m.id !== id)`. */
  function Remove(favs: seq<Movie>, id: int): (r: seq<Movie>)
    ensures !IsIn(r, id)
    ensures forall other :: other != id ==> (IsIn(r, other) <==> IsIn(favs, other))
    ensures IsSubsequence(r, favs)
    ensures forall m :: multiset(r)[m] == if m.id == id then 0 else multiset(favs)[m]
  {
    if favs == [] then []
    else
      assert favs == [favs[0]] + favs[1..];
      if favs[0].id == id then
        Remove(favs[1..], id)
      else
        var rest := Remove(favs[1..], id);
        assert ([favs[0]] + rest)[1..] == rest;
        [favs[0]] + rest
  }

  /** The tail of a list with unique ids has unique ids and lacks the head's id. */
  lemma UniqueTail(favs: seq<Movie>)
    requires favs != [] && UniqueIds(favs)
    ensures UniqueIds(favs[1..]) && !IsIn(favs[1..], favs[0].id)
  {
    var tail := favs[1..];
    forall i, j | 0 <= i < j < |tail| ensures tail[i].id != tail[j].id {
      assert tail[i] == favs[i + 1] && tail[j] == favs[j + 1];
    }
    forall k | 0 <= k < |tail| ensures tail[k].id != favs[0].id {
      assert tail[k] == favs[k + 1];
    }
  }

  /** Putting a movie in front of a list with unique ids that lacks its id keeps the ids unique. */
  lemma UniqueCons(head: Movie, rest: seq<Movie>)
    requires UniqueIds(rest) && !IsIn(rest, head.id)
    ensures UniqueIds([head] + rest)
  {
    var r := [head] + rest;
    forall i, j | 0 <= i < j < |r| ensures r[i].id != r[j].id {
      assert r[j] == rest[j - 1];
      if i > 0 {
        assert r[i] == rest[i - 1];
      }
    }
  }

  /** Removing keeps the ids unique. */
  lemma {:induction false} RemoveKeepsUniqueIds(favs: seq<Movie>, id: int)
    requires UniqueIds(favs)
    ensures UniqueIds(Remove(favs, id))
  {
    if favs != [] {
      UniqueTail(favs);
      RemoveKeepsUniqueIds(favs[1..], id);
      if favs[0].id != id {
        UniqueCons(favs[0], Remove(favs[1..], id));
      }
    }
  }

  /** Removing an id that no entry has leaves the list as it was. */
  lemma {:induction false} RemoveAbsent(favs: seq<Movie>, id: int)
    requires !IsIn(favs, id)
    ensures Remove(favs, id) == favs
  {
    if favs != [] {
      RemoveAbsent(favs[1..], id);
      assert favs == [favs[0]] + favs[1..];
    }
  }

  /** Adding the same movie twice is adding it once. */
  lemma AddIdempotent(favs: seq<Movie>, movie: Movie)
    ensures Add(Add(favs, movie), movie) == Add(favs, movie)
  {
  }

  /** A user intent that changes the list. */
  datatype Intent = AddMovie(movie: Movie) | RemoveId(id: int)

  /** The updater an intent calls. */
  function Step(favs: seq<Movie>, intent: Intent): seq<Movie>
  {
    match intent
    case AddMovie(m) => Add(favs, m)
    case RemoveId(id) => Remove(favs, id)
  }

  /** The list after the intents, applied in order. */
  function ApplyIntents(favs: seq<Movie>, intents: seq<Intent>): seq<Movie>
    decreases |intents|
  {
    if intents == [] then favs else ApplyIntents(Step(favs, intents[0]), intents[1..])
  }

  /** Any sequence of adds and removes keeps the ids unique. */
  lemma {:induction false} IntentsKeepUniqueIds(favs: seq<Movie>, intents: seq<Intent>)
    requires UniqueIds(favs)
    ensures UniqueIds(ApplyIntents(favs, intents))
    decreases |intents|
  {
    if intents != [] {
      if intents[0].RemoveId? {
        RemoveKeepsUniqueIds(favs, intents[0].id);
      }
      IntentsKeepUniqueIds(Step(favs, intents[0]), intents[1..]);
    }
  }

  /** The intent is about this id. */
  predicate Names(intent: Intent, id: int)
  {
    match intent
    case AddMovie(m) => m.id == id
    case RemoveId(x) => x == id
  }

  /**
   * Whether `id` should be a favorite after the intents: the last intent that names it
   * decides (an add yes, a remove no); if none does, the starting list decides.
   */
  function Decided(favs: seq<Movie>, intents: seq<Intent>, id: int): bool
  {
    if intents == [] then IsIn(favs, id)
    else if Names(intents[|intents| - 1], id) then intents[|intents| - 1].AddMovie?
    else Decided(favs, intents[..|intents| - 1], id)
  }

  /** Applying one more intent is one more step. */
  lemma {:induction false} ApplyIntentsSnoc(favs: seq<Movie>, intents: seq<Intent>, last: Intent)
    ensures ApplyIntents(favs, intents + [last]) == Step(ApplyIntents(favs, intents), last)
    decreases |intents|
  {
    if intents == [] {
      assert ([] + [last])[1..] == [];
    } else {
      assert (intents + [last])[1..] == intents[1..] + [last];
      ApplyIntentsSnoc(Step(favs, intents[0]), intents[1..], last);
    }
  }

  /** After any sequence of intents, membership (`isInFavorites`) is what the intents decided. */
  lemma {:induction false} IntentsDecideMembership(favs: seq<Movie>, intents: seq<Intent>, id: int)
    ensures IsIn(ApplyIntents(favs, intents), id) == Decided(favs, intents, id)
    decreases |intents|
  {
    if intents != [] {
      var init, last := intents[..|intents| - 1], intents[|intents| - 1];
      assert intents == init + [last];
      ApplyIntentsSnoc(favs, init, last);
      IntentsDecideMembership(favs, init, id);
    }
  }
}
