/** File signals: which files each poll of the directory dispatches. */
module FilePolls {
  import opened Dedupe

  // Specification.

  /** A poll goes through the listing and remembers every name, */
  function Remembers(seen: seq<string>, names: seq<string>, size: nat): seq<string>
    decreases |names|
  {
    if names == [] then seen else Remembers(Remembered(seen, names[0], size), names[1..], size)
  }

  /** and picks for dispatch those it does not know. */
  function Picks(seen: seq<string>, names: seq<string>, size: nat): seq<string>
    decreases |names|
  {
    if names == [] then []
    else
      var later := Picks(Remembered(seen, names[0], size), names[1..], size);
      if Accepts(seen, names[0]) then [names[0]] + later else later
  }

  /** What `polls` polls of a directory whose files are kept dispatch, in order. */
  function Dispatches(seen: seq<string>, names: seq<string>, size: nat, polls: nat): seq<string>
    decreases polls
  {
    if polls == 0 then []
    else Picks(seen, names, size) + Dispatches(Remembers(seen, names, size), names, size, polls - 1)
  }

  predicate Listing(names: seq<string>) {
    NoRepeats(names) && "" !in names
  }

  /** The loop of one poll; `dispatched` collects the names that go to the dispatch. */
  method PollFileSignals(cache: DedupeCache, names: seq<string>, cacheSize: nat) returns (dispatched: seq<string>)
    requires cache.Valid() && "" !in names
    modifies cache
    ensures cache.Valid()
    ensures cache.order == Remembers(old(cache.order), names, cacheSize)
    ensures dispatched == Picks(old(cache.order), names, cacheSize)
  {
    dispatched := [];
    var rest := names;
    while rest != []
      invariant cache.Valid() && "" !in rest
      invariant Remembers(cache.order, rest, cacheSize) == Remembers(old(cache.order), names, cacheSize)
      invariant dispatched + Picks(cache.order, rest, cacheSize) == Picks(old(cache.order), names, cacheSize)
      decreases |rest|
    {
      ghost var later := Picks(Remembered(cache.order, rest[0], cacheSize), rest[1..], cacheSize);
      Regroup(dispatched, [rest[0]], later);
      var isNew := cache.RememberFileSeen(rest[0], cacheSize);
      if isNew {
        dispatched := dispatched + [rest[0]];
      }
      rest := rest[1..];
    }
  }

  lemma Regroup(a: seq<string>, b: seq<string>, c: seq<string>)
    ensures a + b + c == a + (b + c)
  {
  }

  // A directory that fits into the memory.

  lemma {:induction false} FirstPollTakesAll(seen: seq<string>, names: seq<string>, size: nat)
    requires Listing(names) && |seen| + |names| <= size && forall n :: n in names ==> n !in seen
    ensures Remembers(seen, names, size) == seen + names && Picks(seen, names, size) == names
    decreases |names|
  {
    if names == [] {
      assert seen + names == seen;
    } else {
      assert names[0] in names;
      RestIsNew(seen, names);
      hide Listing;
      FirstPollTakesAll(seen + [names[0]], names[1..], size);
      assert seen + [names[0]] + names[1..] == seen + names;
      assert [names[0]] + names[1..] == names;
    }
  }

  lemma RestIsNew(seen: seq<string>, names: seq<string>)
    requires Listing(names) && names != [] && forall n :: n in names ==> n !in seen
    ensures names[0] != "" && Listing(names[1..])
    ensures forall n :: n in names[1..] ==> n !in seen + [names[0]]
  {
    assert names[0] in names;
    forall n | n in names[1..]
      ensures n !in seen + [names[0]] && n in names
    {
    }
  }

  lemma {:induction false} LaterPollTakesNone(seen: seq<string>, names: seq<string>, size: nat)
    requires forall n :: n in names ==> n in seen
    ensures Remembers(seen, names, size) == seen && Picks(seen, names, size) == []
    decreases |names|
  {
    if names != [] {
      assert names[0] in names;
      LaterPollTakesNone(seen, names[1..], size);
    }
  }

  // A directory that does not.

  lemma NewestAgain(seen: seq<string>, name: string, size: nat)
    ensures Newest(Newest(seen, size) + [name], size) == Newest(seen + [name], size)
  {
  }

  /** When a name comes up again, at least `size` others have been remembered since. */
  lemma PushedOut(history: seq<string>, names: seq<string>, i: nat, size: nat)
    requires Listing(names) && i < |names| && size < |names| && (history == [] || history == names)
    ensures names[i] !in Newest(history + names[..i], size)
  {
    var all := history + names[..i];
    var kept := Newest(all, size);
    forall k | 0 <= k < |kept|
      ensures kept[k] != names[i]
    {
      var at := k + |all| - |kept|;
      assert kept[k] == all[at];
      assert all[at] == if at < |history| then names[at] else names[at - |history|];
    }
  }

  lemma {:induction false} PollTakesAll(history: seq<string>, names: seq<string>, i: nat, size: nat)
    requires Listing(names) && i <= |names| && size < |names| && (history == [] || history == names)
    ensures Remembers(Newest(history + names[..i], size), names[i..], size) == Newest(history + names, size)
    ensures Picks(Newest(history + names[..i], size), names[i..], size) == names[i..]
    decreases |names| - i
  {
    if i == |names| {
      assert names[..i] == names && names[i..] == [];
    } else {
      hide Picks, Remembers, NoRepeats, Newest;
      var seen := Newest(history + names[..i], size);
      PushedOut(history, names, i, size);
      NewestAgain(history + names[..i], names[i], size);
      OneLonger(history, names, i);
      PollStep(seen, names, i, size);
      PollTakesAll(history, names, i + 1, size);
    }
  }

  lemma OneLonger(history: seq<string>, names: seq<string>, i: nat)
    requires i < |names|
    ensures history + names[..i] + [names[i]] == history + names[..i + 1]
    ensures [names[i]] + names[i + 1..] == names[i..]
  {
  }

  /** A new name in the middle of a poll. */
  lemma PollStep(seen: seq<string>, names: seq<string>, i: nat, size: nat)
    requires i < |names| && "" !in names && names[i] !in seen
    ensures var after := Newest(seen + [names[i]], size);
      && Remembers(seen, names[i..], size) == Remembers(after, names[i + 1..], size)
      && Picks(seen, names[i..], size) == [names[i]] + Picks(after, names[i + 1..], size)
  {
    hide Newest;
    assert names[i] in names;
    assert names[i..][0] == names[i] && names[i..][1..] == names[i + 1..];
  }

  lemma NewestOfTail(history: seq<string>, names: seq<string>, size: nat)
    requires size <= |names|
    ensures Newest(history + names, size) == Newest(names, size)
  {
    if size < |names| {
      assert (history + names)[|history| + |names| - size..] == names[|names| - size..];
    }
  }

  /** The names `polls` times over. */
  function Times(names: seq<string>, polls: nat): seq<string> {
    if polls == 0 then [] else names + Times(names, polls - 1)
  }

  lemma TimesStep(names: seq<string>, polls: nat)
    requires polls > 0
    ensures Times(names, polls) == names + Times(names, polls - 1)
  {
  }

  lemma {:induction false} EveryPollTakesAll(history: seq<string>, names: seq<string>, size: nat, polls: nat)
    requires Listing(names) && size < |names| && (history == [] || history == names)
    ensures Dispatches(Newest(history, size), names, size, polls) == Times(names, polls)
    decreases polls
  {
    if polls > 0 {
      assert names[..0] == [] && history + [] == history && names[0..] == names;
      PollTakesAll(history, names, 0, size);
      hide Picks, Remembers, Newest, NoRepeats, Times;
      assert Times(names, polls) == names + Times(names, polls - 1) by {
        TimesStep(names, polls);
      }
      NewestOfTail(history, names, size);
      EveryPollTakesAll(names, names, size, polls - 1);
    }
  }

  lemma {:induction false} LaterPollsTakeNone(seen: seq<string>, names: seq<string>, size: nat, polls: nat)
    requires forall n :: n in names ==> n in seen
    ensures Dispatches(seen, names, size, polls) == []
    decreases polls
  {
    if polls > 0 {
      LaterPollTakesNone(seen, names, size);
      LaterPollsTakeNone(seen, names, size, polls - 1);
    }
  }

  /**
   * Over any number of polls of a directory whose files are kept, every file is dispatched once if they fit
   * into the memory, and once in every poll if they do not.
   */
  lemma PollsDispatch(names: seq<string>, size: nat, polls: nat)
    requires Listing(names) && polls > 0
    ensures Dispatches([], names, size, polls) == if |names| <= size then names else Times(names, polls)
  {
    hide Picks, Remembers, NoRepeats, Times;
    if |names| <= size {
      FirstPollTakesAll([], names, size);
      assert [] + names == names;
      LaterPollsTakeNone(names, names, size, polls - 1);
      assert names + [] == names;
    } else {
      hide Dispatches;
      EveryPollTakesAll([], names, size, polls);
    }
  }

  lemma {:induction false} CountTimes(names: seq<string>, polls: nat, name: string)
    ensures multiset(Times(names, polls))[name] == polls * multiset(names)[name]
  {
    if polls > 0 {
      CountTimes(names, polls - 1, name);
      assert multiset(names + Times(names, polls - 1)) == multiset(names) + multiset(Times(names, polls - 1));
      OneMore(polls, multiset(names)[name]);
    }
  }

  lemma OneMore(k: nat, n: nat)
    requires k > 0
    ensures n + (k - 1) * n == k * n
  {
  }

  lemma {:induction false} CountOnce(names: seq<string>, name: string)
    requires NoRepeats(names) && name in names
    ensures multiset(names)[name] == 1
    decreases |names|
  {
    assert names == [names[0]] + names[1..];
    if name in names[1..] {
      CountOnce(names[1..], name);
    }
  }

  /** Each file is dispatched exactly once over two or more polls if and only if the memory holds them all. */
  lemma DispatchedOnceExactlyWhen(names: seq<string>, size: nat, polls: nat)
    requires Listing(names) && polls > 1
    ensures (forall name :: name in names ==> multiset(Dispatches([], names, size, polls))[name] == 1)
            <==> |names| <= size
  {
    PollsDispatch(names, size, polls);
    forall name | name in names
      ensures multiset(names)[name] == 1 && multiset(Times(names, polls))[name] == polls
    {
      CountOnce(names, name);
      CountTimes(names, polls, name);
    }
    if |names| > size {
      assert names[0] in names;
    }
  }

  /** A file whose dispatch fails leaves its key free, and yet the next poll passes it over. */
  lemma FailedFileIsNotRetried(seen: seq<string>, order: seq<string>, name: string, callbacks: Callbacks, size: nat)
    requires CacheInvariant(order, size) && size > 0 && name != ""
    requires Dispatched(order, DedupeKey("", name), true, callbacks, size).1.Failed?
    ensures Accepts(Dispatched(order, DedupeKey("", name), true, callbacks, size).0, DedupeKey("", name))
    ensures Picks(Remembers(seen, [name], size), [name], size) == []
  {
    FailureIsRetryable(order, DedupeKey("", name), true, callbacks, size);
    var after := Remembers(seen, [name], size);
    assert [name][1..] == [] && Remembers(Remembered(seen, name, size), [], size) == Remembered(seen, name, size);
    assert after == Remembered(seen, name, size);
    if name !in seen {
      assert after[|after| - 1] == name;
    }
    LaterPollTakesNone(after, [name], size);
  }
}
