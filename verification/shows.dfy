/** The record type of the catalogue and the small vocabulary shared by every
    other module: optional values, the list-sizing configuration, the outcome
    of one remote page request, and identity helpers over sequences of shows. */
module Shows {

  datatype Option<+T> = None | Some(value: T)

  /** Poster URLs; a missing URL is the empty string. */
  datatype Image = Image(medium: string, original: string)

  datatype Schedule = Schedule(time: string, days: seq<string>)

  /** A show as the list logic and the display helpers see it: its identity
      plus the optional fields that the helpers read. */
  datatype Show = Show(
    id: int,
    status: string,
    summary: Option<string>,
    genres: seq<string>,
    image: Option<Image>,
    runtime: Option<int>,
    averageRuntime: Option<int>,
    schedule: Schedule)

  /** The three sizing constants of the list views. `itemsPerPage` must be
      positive for any of the window arithmetic to make sense. */
  datatype Config = Config(itemsPerPage: nat, loadMoreThreshold: int, pagesAheadThreshold: int)

  predicate ValidConfig(cfg: Config) {
    cfg.itemsPerPage > 0
  }

  /** What the remote page source answered for the requested page. */
  datatype FetchOutcome = Fetched(batch: seq<Show>) | FetchFailed

  /** A transition that may have issued one remote request; `requested` is the
      page index it asked for, or None when no request was made. */
  datatype Step<S> = Step(state: S, requested: Option<nat>)

  function Ids(s: seq<Show>): set<int> {
    set i | 0 <= i < |s| :: s[i].id
  }

  predicate UniqueIds(s: seq<Show>) {
    forall i, j :: 0 <= i < j < |s| ==> s[i].id != s[j].id
  }

  function Min(a: int, b: int): int {
    if a <= b then a else b
  }

  function Max(a: int, b: int): int {
    if a >= b then a else b
  }

  lemma IdsAppend(a: seq<Show>, b: seq<Show>)
    ensures Ids(a + b) == Ids(a) + Ids(b)
  {
    var ab := a + b;
    forall x | x in Ids(ab) ensures x in Ids(a) + Ids(b) {
      var i :| 0 <= i < |ab| && ab[i].id == x;
      if i < |a| { assert a[i] == ab[i]; } else { assert b[i - |a|] == ab[i]; }
    }
    forall x | x in Ids(a) + Ids(b) ensures x in Ids(ab) {
      if x in Ids(a) {
        var i :| 0 <= i < |a| && a[i].id == x;
        assert ab[i] == a[i];
      } else {
        var i :| 0 <= i < |b| && b[i].id == x;
        assert ab[|a| + i] == b[i];
      }
    }
  }

  /** `a` can be obtained from `b` by deleting elements: it keeps their order. */
  predicate Subsequence<T(==)>(a: seq<T>, b: seq<T>)
    decreases |b|
  {
    if |b| == 0 then |a| == 0
    else (|a| > 0 && a[0] == b[0] && Subsequence(a[1..], b[1..])) || Subsequence(a, b[1..])
  }

  lemma {:induction false} SubsequenceOfSuffix<T>(a: seq<T>, b: seq<T>, k: nat)
    requires k <= |b| && Subsequence(a, b[k..])
    ensures Subsequence(a, b)
  {
    if k > 0 {
      assert b[1..][k - 1..] == b[k..];
      SubsequenceOfSuffix(a, b[1..], k - 1);
    }
  }

  /** The shows of `batch` whose id does not occur in `existing`, in batch
      order. Ids repeated inside `batch` itself are not filtered: every copy
      of a kept show is kept. */
  function FreshShows(batch: seq<Show>, existing: set<int>): (r: seq<Show>)
    ensures |r| <= |batch|
    ensures forall k :: 0 <= k < |r| ==> r[k] in batch && r[k].id !in existing
    ensures forall x :: x in batch && x.id !in existing ==> x in r
  {
    if |batch| == 0 then []
    else
      var rest := FreshShows(batch[1..], existing);
      if batch[0].id in existing then rest else [batch[0]] + rest
  }

  /** The filter keeps batch order and every copy of each show whose id is
      not stored, and nothing else: together these fix its result. */
  lemma FreshShowsOrderAndCopies(batch: seq<Show>, existing: set<int>)
    ensures Subsequence(FreshShows(batch, existing), batch)
    ensures forall x :: multiset(FreshShows(batch, existing))[x] == if x.id in existing then 0 else multiset(batch)[x]
  {
    FreshShowsOrder(batch, existing);
    FreshShowsCopies(batch, existing);
  }

  lemma {:induction false} FreshShowsOrder(batch: seq<Show>, existing: set<int>)
    ensures Subsequence(FreshShows(batch, existing), batch)
  {
    if |batch| > 0 {
      var rest := FreshShows(batch[1..], existing);
      FreshShowsOrder(batch[1..], existing);
      if batch[0].id !in existing {
        assert ([batch[0]] + rest)[1..] == rest;
      }
    }
  }

  lemma {:induction false} FreshShowsCopies(batch: seq<Show>, existing: set<int>)
    ensures forall x :: multiset(FreshShows(batch, existing))[x] == if x.id in existing then 0 else multiset(batch)[x]
  {
    if |batch| > 0 {
      var rest := FreshShows(batch[1..], existing);
      FreshShowsCopies(batch[1..], existing);
      assert batch == [batch[0]] + batch[1..];
      assert multiset(batch) == multiset([batch[0]]) + multiset(batch[1..]);
      if batch[0].id in existing {
        assert FreshShows(batch, existing) == rest;
      } else {
        assert multiset(FreshShows(batch, existing)) == multiset([batch[0]]) + multiset(rest);
      }
    }
  }

  lemma {:induction false} FreshShowsIds(batch: seq<Show>, existing: set<int>)
    ensures Ids(FreshShows(batch, existing)) == Ids(batch) - existing
  {
    if |batch| > 0 {
      FreshShowsIds(batch[1..], existing);
      assert batch == [batch[0]] + batch[1..];
      IdsAppend([batch[0]], batch[1..]);
      var rest := FreshShows(batch[1..], existing);
      if batch[0].id !in existing {
        IdsAppend([batch[0]], rest);
      }
    }
  }

  /** Filtering distributes over concatenation: the survivors keep batch order. */
  lemma {:induction false} FreshShowsConcat(a: seq<Show>, b: seq<Show>, existing: set<int>)
    ensures FreshShows(a + b, existing) == FreshShows(a, existing) + FreshShows(b, existing)
  {
    if |a| > 0 {
      assert (a + b)[1..] == a[1..] + b;
      FreshShowsConcat(a[1..], b, existing);
    } else {
      assert a + b == b;
    }
  }

  lemma {:induction false} FreshShowsUnique(batch: seq<Show>, existing: set<int>)
    requires UniqueIds(batch)
    ensures UniqueIds(FreshShows(batch, existing))
  {
    if |batch| > 0 {
      FreshShowsUnique(batch[1..], existing);
      var rest := FreshShows(batch[1..], existing);
      if batch[0].id !in existing {
        forall k | 0 <= k < |rest| ensures rest[k].id != batch[0].id {
          var j :| 0 <= j < |batch[1..]| && batch[1..][j] == rest[k];
          assert batch[j + 1] == rest[k];
        }
      }
    }
  }

  /** Appending shows whose ids are new and mutually distinct keeps the ids of
      a sequence unique. */
  lemma AppendUnique(a: seq<Show>, b: seq<Show>)
    requires UniqueIds(a) && UniqueIds(b)
    requires Ids(a) !! Ids(b)
    ensures UniqueIds(a + b)
  {
    var ab := a + b;
    forall i, j | 0 <= i < j < |ab| ensures ab[i].id != ab[j].id {
      if j >= |a| && i < |a| {
        assert ab[i].id in Ids(a);
        assert ab[j] == b[j - |a|];
        assert ab[j].id in Ids(b);
      } else if i >= |a| {
        assert ab[i] == b[i - |a|] && ab[j] == b[j - |a|];
      }
    }
  }

  /** Appending the unseen part of a unique slice to a unique sequence keeps
      it unique and adds exactly the slice's ids. */
  lemma AppendFreshKeepsInv(shown: seq<Show>, slice: seq<Show>)
    requires UniqueIds(shown) && UniqueIds(slice)
    ensures UniqueIds(shown + FreshShows(slice, Ids(shown)))
    ensures Ids(shown + FreshShows(slice, Ids(shown))) == Ids(shown) + Ids(slice)
  {
    var unseen := FreshShows(slice, Ids(shown));
    FreshShowsUnique(slice, Ids(shown));
    FreshShowsIds(slice, Ids(shown));
    AppendUnique(shown, unseen);
    IdsAppend(shown, unseen);
  }

  /** In a sequence with unique ids, the id at position k does not occur in
      any slice that starts after k. */
  lemma IdNotInLaterSlice(s: seq<Show>, k: nat, i: nat, e: nat)
    requires UniqueIds(s)
    requires k < i <= e <= |s|
    ensures s[k].id !in Ids(s[i..e])
  {
    forall p | 0 <= p < e - i ensures s[i..e][p].id != s[k].id {
      assert s[i..e][p] == s[i + p];
    }
  }

  lemma IdsSingleton(x: Show)
    ensures Ids([x]) == {x.id}
  {
    assert [x][0] == x;
  }
}
