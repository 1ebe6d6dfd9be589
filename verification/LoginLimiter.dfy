/**
 The in-memory login limiter: fixed windows by account and by client in one map, evicted
 only when they are met again or the map is full.
 */
module LoginLimiter {
  import opened Wrappers
  import opened Text

  type Time = int
  type Key = string

  datatype Entry = Entry(windowStarted: Time, attempts: nat)

  type Entries = map<Key, Entry>

  datatype Limits = Limits(window: int, perAccount: int, perClient: int, maxEntries: int)

  predicate ValidLimits(l: Limits) {
    l.window > 0 && l.perAccount > 0 && l.perClient > 0 && l.maxEntries >= 2
  }

  // Keys

  function TrimLeft(s: string): string {
    if s != "" && IsSpace(s[0]) then TrimLeft(s[1..]) else s
  }

  function TrimRight(s: string): string {
    if s != "" && IsSpace(s[|s| - 1]) then TrimRight(s[..|s| - 1]) else s
  }

  function ToLower(s: string): string {
    seq(|s|, i requires 0 <= i < |s| => if 'A' <= s[i] <= 'Z' then s[i] - 'A' + 'a' else s[i])
  }

  function AccountKey(username: string): Key {
    "account\0" + ToLower(TrimRight(TrimLeft(username)))
  }

  function ClientKey(client: string): Key {
    "client\0" + client
  }

  lemma KeysDiffer(username: string, client: string)
    ensures AccountKey(username) != ClientKey(client)
  {
    assert AccountKey(username)[0] == 'a' && ClientKey(client)[0] == 'c';
  }

  // Eager eviction

  predicate Expired(e: Entry, now: Time, l: Limits) {
    now >= e.windowStarted + l.window
  }

  /** The entries that have not run out: the map an eager limiter would keep. */
  function Live(entries: Entries, now: Time, l: Limits): Entries {
    map key | key in entries && !Expired(entries[key], now, l) :: entries[key]
  }

  predicate Full(live: Entries, key: Key, limit: int) {
    key in live && live[key].attempts >= limit
  }

  function Missing(live: Entries, key: Key): nat {
    if key in live then 0 else 1
  }

  function Counted(live: Entries, key: Key, now: Time): Entries {
    live[key := if key in live then live[key].(attempts := live[key].attempts + 1) else Entry(now, 1)]
  }

  /** What an eager limiter decides: the entries after an admitted attempt, or None if it is refused. */
  function Admit(live: Entries, account: Key, client: Key, now: Time, l: Limits): Option<Entries> {
    if Full(live, account, l.perAccount) || Full(live, client, l.perClient) then None
    else if |live| + Missing(live, account) + Missing(live, client) > l.maxEntries then None
    else Some(Counted(Counted(live, account, now), client, now))
  }

  // The limiter

  class MemoryLoginLimiter {
    const limits: Limits
    var entries: Entries

    ghost predicate Valid()
      reads this
    {
      ValidLimits(limits) && |entries| <= limits.maxEntries
    }

    constructor (limits: Limits)
      requires ValidLimits(limits)
      ensures Valid() && this.limits == limits && entries == map[]
    {
      this.limits, entries := limits, map[];
    }

    /**
     Admits or refuses an attempt. On the live entries it decides as an eager limiter does;
     a refusal leaves every live entry as it was.
     */
    method Allow(username: string, client: string, now: Time) returns (allowed: bool)
      requires Valid()
      modifies this
      ensures Valid()
      ensures LazyStep(old(entries), Attempt(username, client, now), limits, entries, allowed)
      ensures forall key | key in old(entries) && key !in entries :: Expired(old(entries)[key], now, limits)
    {
      hide AccountKey, ClientKey, ToLower, TrimLeft, TrimRight, Live, Expired;
      var keys := [(AccountKey(username), limits.perAccount), (ClientKey(client), limits.perClient)];
      KeysDiffer(username, client);
      ghost var live := Live(entries, now, limits);
      var newEntries := 0;
      for index := 0 to 2
        invariant Valid() && Live(entries, now, limits) == live && Shrunk(old(entries), entries, now)
        invariant forall i | 0 <= i < index ::
                    !Full(live, keys[i].0, keys[i].1) && (keys[i].0 in entries ==> keys[i].0 in live)
        invariant newEntries == (if index > 0 then Missing(live, keys[0].0) else 0)
                                  + (if index > 1 then Missing(live, keys[1].0) else 0)
      {
        var found := Find(keys[index].0, now);
        if !found {
          newEntries := newEntries + 1;
          continue;
        }
        if entries[keys[index].0].attempts >= keys[index].1 {
          assert Full(live, keys[index].0, keys[index].1);
          return false;
        }
      }
      LiveSize(entries, now, limits);
      if |entries| + newEntries > limits.maxEntries {
        RemoveExpired(now);
        if |entries| + newEntries > limits.maxEntries {
          return false;
        }
      }
      LiveSize(entries, now, limits);
      Count(keys[0].0, now);
      Count(keys[1].0, now);
      allowed := true;
    }

    /** The later map is the earlier one without some entries that have run out. */
    ghost predicate Shrunk(a: Entries, b: Entries, now: Time) {
      && (forall key | key in a && key !in b :: Expired(a[key], now, limits))
      && (forall key | key in b :: key in a && b[key] == a[key])
    }

    /** Looks up a key's live entry, dropping one that has run out. */
    method Find(key: Key, now: Time) returns (found: bool)
      requires Valid()
      modifies this`entries
      ensures Valid() && Live(entries, now, limits) == Live(old(entries), now, limits)
      ensures Shrunk(old(entries), entries, now)
      ensures found <==> key in entries
      ensures found <==> key in Live(entries, now, limits)
      ensures found ==> Live(entries, now, limits)[key] == entries[key]
    {
      found := key in entries;
      if found && Expired(entries[key], now, limits) {
        RemoveSize(entries, key);
        entries := entries - {key};
        found := false;
      }
    }

    /** Counts one attempt in the window of a key, opening one if there is none. */
    method Count(key: Key, now: Time)
      requires ValidLimits(limits) && (key in entries ==> !Expired(entries[key], now, limits))
      modifies this`entries
      ensures entries == Counted(old(entries), key, now)
      ensures Live(entries, now, limits) == Counted(Live(old(entries), now, limits), key, now)
      ensures |entries| == |old(entries)| + Missing(old(entries), key)
    {
      var entry := if key in entries then entries[key] else Entry(now, 0);
      AddSize(entries, key, entry.(attempts := entry.attempts + 1));
      entries := entries[key := entry.(attempts := entry.attempts + 1)];
    }

    method RemoveExpired(now: Time)
      modifies this`entries
      ensures entries == Live(old(entries), now, limits) == Live(entries, now, limits)
      ensures Shrunk(old(entries), entries, now)
    {
      var pending := entries.Keys;
      while pending != {}
        invariant pending <= entries.Keys
        invariant forall key | key in entries :: key in old(entries) && entries[key] == old(entries)[key]
        invariant forall key | key in old(entries) && key !in pending ::
                    key in entries <==> !Expired(old(entries)[key], now, limits)
        invariant forall key | key in pending :: key in old(entries)
        decreases |pending|
      {
        var key :| key in pending;
        pending := pending - {key};
        if Expired(entries[key], now, limits) {
          entries := entries - {key};
        }
      }
    }

    /** A successful login clears the account's window; the client's stays. */
    method Succeeded(username: string)
      requires Valid()
      modifies this
      ensures Valid() && LazyStep(old(entries), Op.Success(username), limits, entries, false)
    {
      if AccountKey(username) in entries {
        RemoveSize(entries, AccountKey(username));
      }
      entries := entries - {AccountKey(username)};
    }
  }

  lemma RemoveSize(entries: Entries, key: Key)
    requires key in entries
    ensures |entries - {key}| == |entries| - 1
  {
    assert (entries - {key}).Keys == entries.Keys - {key};
  }

  lemma AddSize(entries: Entries, key: Key, entry: Entry)
    ensures |entries[key := entry]| == |entries| + Missing(entries, key)
  {
    assert entries[key := entry].Keys == entries.Keys + {key};
  }

  lemma LiveSize(entries: Entries, now: Time, l: Limits)
    ensures |Live(entries, now, l)| <= |entries| && Live(entries, now, l).Keys <= entries.Keys
    ensures forall key | key in Live(entries, now, l) :: !Expired(entries[key], now, l)
  {
    SubsetSize(Live(entries, now, l).Keys, entries.Keys);
  }

  /** Returns a limiter, or null when an option is not configured. */
  method NewMemoryLoginLimiter(limits: Limits) returns (limiter: MemoryLoginLimiter?)
    ensures limiter == null <==> limits.window <= 0 || limits.perAccount <= 0 || limits.perClient <= 0
                                 || limits.maxEntries < 2
    ensures limiter != null ==> fresh(limiter) && limiter.Valid() && limiter.limits == limits && limiter.entries == map[]
  {
    limiter := null;
    if ValidLimits(limits) {
      limiter := new MemoryLoginLimiter(limits);
    }
  }

  // Runs

  datatype Op = Attempt(username: string, client: string, now: Time) | Success(username: string)

  /** One operation on an eager limiter, and whether it admitted an attempt. */
  function Step(m: Entries, op: Op, l: Limits): (Entries, bool) {
    match op
    case Attempt(username, client, now) =>
      var live := Live(m, now, l);
      (match Admit(live, AccountKey(username), ClientKey(client), now, l)
       case Some(after) => (after, true)
       case None => (live, false))
    case Success(username) => (m - {AccountKey(username)}, false)
  }

  function Run(ops: seq<Op>, l: Limits): Entries {
    if ops == [] then map[] else Step(Run(ops[..|ops| - 1], l), ops[|ops| - 1], l).0
  }

  predicate Admitted(ops: seq<Op>, l: Limits)
    requires ops != []
  {
    Step(Run(ops[..|ops| - 1], l), ops[|ops| - 1], l).1
  }

  /** The clock after a run: the time of its latest attempt, or a time before all of them. */
  predicate ClockAtMost(ops: seq<Op>, now: Time) {
    forall i | 0 <= i < |ops| && ops[i].Attempt? :: ops[i].now <= now
  }

  predicate Monotone(ops: seq<Op>) {
    forall i, j | 0 <= i < j < |ops| && ops[i].Attempt? && ops[j].Attempt? :: ops[i].now <= ops[j].now
  }

  /** What `Allow` and `Succeeded` promise of the lazily evicted map. */
  ghost predicate LazyStep(a: Entries, op: Op, l: Limits, b: Entries, allowed: bool) {
    match op
    case Attempt(username, client, now) =>
      var live := Live(a, now, l);
      var admitted := Admit(live, AccountKey(username), ClientKey(client), now, l);
      (allowed <==> admitted.Some?) && Live(b, now, l) == admitted.GetOr(live)
    case Success(username) => !allowed && b == a - {AccountKey(username)}
  }

  /**
   Refinement: from an empty map and on a clock that does not go back, a limiter that evicts
   lazily admits exactly the attempts an eager one admits, and holds the same live entries.
   */
  lemma {:induction false} LazyRefinesEager(ops: seq<Op>, maps: seq<Entries>, allowed: seq<bool>, l: Limits, now: Time)
    requires ValidLimits(l) && Monotone(ops) && ClockAtMost(ops, now)
    requires |maps| == |ops| + 1 && |allowed| == |ops| && maps[0] == map[]
    requires forall i | 0 <= i < |ops| :: LazyStep(maps[i], ops[i], l, maps[i + 1], allowed[i])
    ensures Live(maps[|ops|], now, l) == Live(Run(ops, l), now, l)
    ensures ops != [] ==> (allowed[|ops| - 1] <==> Admitted(ops, l))
    decreases |ops|
  {
    hide AccountKey, ClientKey, Step, Live, LazyStep;
    if ops != [] {
      var n := |ops| - 1;
      var op, before := ops[n], ops[..n];
      var at := if op.Attempt? then op.now else now;
      LazyRefinesEager(before, maps[..n + 1], allowed[..n], l, at);
      LazyStepRefines(maps[n], Run(before, l), op, l, maps[n + 1], allowed[n], at);
      LiveLater(maps[n + 1], at, now, l);
      LiveLater(Run(ops, l), at, now, l);
    } else {
      assert maps[0] == Run(ops, l);
    }
  }

  lemma LazyStepRefines(a: Entries, m: Entries, op: Op, l: Limits, b: Entries, allowed: bool, at: Time)
    requires LazyStep(a, op, l, b, allowed) && Live(a, at, l) == Live(m, at, l) && (op.Attempt? ==> op.now == at)
    ensures Live(b, at, l) == Live(Step(m, op, l).0, at, l) && (allowed <==> Step(m, op, l).1)
  {
    hide AccountKey, ClientKey, Admit;
    if op.Attempt? {
      LiveLater(b, at, at, l);
    } else {
      var key := AccountKey(op.username);
      assert Live(a - {key}, at, l) == Live(a, at, l) - {key} == Live(m - {key}, at, l);
    }
  }

  /** What is live later is what is live now and then. */
  lemma LiveLater(m: Entries, now: Time, later: Time, l: Limits)
    requires now <= later
    ensures Live(m, later, l) == Live(Live(m, now, l), later, l)
  {
  }

  // Admission bounds

  function LimitOf(key: Key, l: Limits): int {
    if key != "" && key[0] == 'a' then l.perAccount else l.perClient
  }

  predicate Names(op: Op, key: Key) {
    op.Attempt? && (AccountKey(op.username) == key || ClientKey(op.client) == key)
  }

  /** An admitted attempt: when, in which window of its key, and as which one of that window. */
  datatype Admission = Admission(at: Time, window: Time, count: nat)

  /** A key's admissions since its last success, if it is an account, after one more operation. */
  function After(m: Entries, op: Op, key: Key, history: seq<Admission>, l: Limits): seq<Admission> {
    if op.Success? && AccountKey(op.username) == key then []
    else if Names(op, key) && Step(m, op, l).1 then
      var entry := Counted(Live(m, op.now, l), key, op.now)[key];
      history + [Admission(op.now, entry.windowStarted, entry.attempts)]
    else history
  }

  function History(ops: seq<Op>, key: Key, l: Limits): seq<Admission> {
    if ops == [] then []
    else
      var before := ops[..|ops| - 1];
      After(Run(before, l), ops[|ops| - 1], key, History(before, key, l), l)
  }

  /** The i-th admission is in the window of the one before, next in count, or opens a window after that one ran out. */
  ghost predicate Follows(h: seq<Admission>, i: nat, window: int)
    requires 0 < i < |h|
  {
    || (h[i].window == h[i - 1].window && h[i].count == h[i - 1].count + 1 && h[i - 1].at <= h[i].at)
    || (h[i].window >= h[i - 1].window + window && h[i].count == 1)
  }

  ghost predicate InWindow(a: Admission, limit: int, window: int) {
    1 <= a.count <= limit && a.window <= a.at < a.window + window && (a.count == 1 ==> a.at == a.window)
  }

  /** Admissions fall into windows of at most `limit`, each begun after the last one ran out. */
  ghost predicate Windowed(h: seq<Admission>, limit: int, window: int) {
    && (h != [] ==> h[0].count == 1)
    && (forall i | 0 <= i < |h| :: InWindow(h[i], limit, window))
    && (forall i | 0 < i < |h| :: Follows(h, i, window))
  }

  /** The entry of a key is its last window; without one, that window has run out. */
  ghost predicate Tracked(m: Entries, key: Key, h: seq<Admission>, now: Time, l: Limits) {
    && (h != [] ==> h[|h| - 1].at <= now)
    && (key in m ==> h != [] && h[|h| - 1].window == m[key].windowStarted && h[|h| - 1].count == m[key].attempts)
    && (key !in m && h != [] ==> h[|h| - 1].window + l.window <= now)
  }

  /** What one step does to the entry of a key. */
  lemma StepOnKey(m: Entries, op: Op, key: Key, l: Limits)
    requires ValidLimits(l)
    ensures var (after, admitted) := Step(m, op, l);
            && (op.Success? && AccountKey(op.username) == key ==> key !in after)
            && (op.Success? && AccountKey(op.username) != key ==>
                  (key in after <==> key in m) && (key in m ==> after[key] == m[key]))
            && (op.Attempt? && !(Names(op, key) && admitted) ==>
                  (key in after <==> key in m && !Expired(m[key], op.now, l)) && (key in after ==> after[key] == m[key]))
            && (Names(op, key) && admitted ==>
                  && key in after && after[key] == Counted(Live(m, op.now, l), key, op.now)[key]
                  && after[key].attempts <= LimitOf(key, l)
                  && after[key] == if key in m && !Expired(m[key], op.now, l)
                                   then Entry(m[key].windowStarted, m[key].attempts + 1) else Entry(op.now, 1))
  {
    hide AccountKey, ClientKey;
    if op.Attempt? {
      KeysDiffer(op.username, op.client);
      KeyLimits(op.username, op.client, l);
    }
  }

  lemma StepIsTracked(m: Entries, op: Op, key: Key, h: seq<Admission>, now: Time, l: Limits)
    requires ValidLimits(l) && Tracked(m, key, h, now, l) && Windowed(h, LimitOf(key, l), l.window)
    requires op.Attempt? ==> op.now == now
    ensures var after := After(m, op, key, h, l);
            Tracked(Step(m, op, l).0, key, after, now, l) && Windowed(after, LimitOf(key, l), l.window)
  {
    hide AccountKey, ClientKey, Step, LimitOf, Names, Counted, Live;
    StepOnKey(m, op, key, l);
    var after := After(m, op, key, h, l);
    if after != h && after != [] {
      OneMoreAdmission(h, after[|h|], LimitOf(key, l), l.window);
    }
  }

  lemma OneMoreAdmission(h: seq<Admission>, a: Admission, limit: int, window: int)
    requires Windowed(h, limit, window) && InWindow(a, limit, window)
    requires if h == [] then a.count == 1 else Follows([h[|h| - 1], a], 1, window)
    ensures Windowed(h + [a], limit, window)
  {
    forall i | 0 < i < |h + [a]| ensures Follows(h + [a], i, window) {
      assert i < |h| ==> Follows(h, i, window);
    }
  }

  lemma KeyLimits(username: string, client: string, l: Limits)
    ensures LimitOf(AccountKey(username), l) == l.perAccount && LimitOf(ClientKey(client), l) == l.perClient
  {
    assert AccountKey(username)[0] == 'a' && ClientKey(client)[0] == 'c';
  }

  /** Every run keeps the admissions of a key in windows. */
  lemma {:induction false} RunIsWindowed(ops: seq<Op>, key: Key, l: Limits, now: Time)
    requires ValidLimits(l) && Monotone(ops) && ClockAtMost(ops, now)
    ensures Tracked(Run(ops, l), key, History(ops, key, l), now, l)
    ensures Windowed(History(ops, key, l), LimitOf(key, l), l.window)
    decreases |ops|
  {
    hide Step, After, LimitOf;
    if ops != [] {
      hide Windowed, Tracked;
      var before, op := ops[..|ops| - 1], ops[|ops| - 1];
      var at := if op.Attempt? then op.now else now;
      RunIsWindowed(before, key, l, at);
      StepIsTracked(Run(before, l), op, key, History(before, key, l), at, l);
    }
  }

  /** Two admissions are in one window, as many places apart as in the list, or a whole window apart. */
  lemma {:induction false} SameWindowOrLater(h: seq<Admission>, limit: int, window: int, i: nat, j: nat)
    requires Windowed(h, limit, window) && window > 0 && i <= j < |h|
    ensures (h[j].window == h[i].window && h[j].count == h[i].count + (j - i)) || h[j].window >= h[i].window + window
    decreases j
  {
    if i < j {
      SameWindowOrLater(h, limit, window, i, j - 1);
      assert Follows(h, j, window);
    }
  }

  /** A window holds at most `limit` admissions, counted from its first. */
  lemma AtMostLimitPerWindow(ops: seq<Op>, key: Key, l: Limits, now: Time, first: nat, last: nat)
    requires ValidLimits(l) && Monotone(ops) && ClockAtMost(ops, now)
    requires first <= last < |History(ops, key, l)|
    requires History(ops, key, l)[first].window == History(ops, key, l)[last].window
    ensures last - first + 1 <= LimitOf(key, l)
    ensures History(ops, key, l)[last].at < History(ops, key, l)[first].window + l.window
  {
    hide Run, History, Tracked;
    RunIsWindowed(ops, key, l, now);
    SameWindowOrLater(History(ops, key, l), LimitOf(key, l), l.window, first, last);
  }

  /** `2 * limit` admissions in a row span at least a whole window. */
  lemma TwiceLimitSpansWindow(h: seq<Admission>, limit: int, window: int, first: nat)
    requires Windowed(h, limit, window) && limit > 0 && window > 0 && first + 2 * limit - 1 < |h|
    ensures h[first].at + window <= h[first + 2 * limit - 1].at
  {
    var next := if h[first].count == 1 then first + limit else first + limit - 1;
    SameWindowOrLater(h, limit, window, first, next);
    SameWindowOrLater(h, limit, window, next, first + 2 * limit - 1);
  }

  /**
   The sliding bound: a half-open interval of a window's length holds at most `2 * limit - 1`
   admissions of a key, for an account between two of its successes.
   */
  lemma AtMostTwiceInAnyWindow(ops: seq<Op>, key: Key, l: Limits, now: Time, from: Time, first: nat, last: nat)
    requires ValidLimits(l) && Monotone(ops) && ClockAtMost(ops, now)
    requires first <= last < |History(ops, key, l)|
    requires from <= History(ops, key, l)[first].at && History(ops, key, l)[last].at < from + l.window
    ensures last - first + 1 <= 2 * LimitOf(key, l) - 1
  {
    hide Run, History, Tracked;
    var h := History(ops, key, l);
    RunIsWindowed(ops, key, l, now);
    if first + 2 * LimitOf(key, l) - 1 <= last {
      TwiceLimitSpansWindow(h, LimitOf(key, l), l.window, first);
      InOrder(h, LimitOf(key, l), l.window, first + 2 * LimitOf(key, l) - 1, last);
    }
  }

  lemma {:induction false} InOrder(h: seq<Admission>, limit: int, window: int, i: nat, j: nat)
    requires Windowed(h, limit, window) && window > 0 && i <= j < |h|
    ensures h[i].at <= h[j].at
    decreases j
  {
    if i < j {
      InOrder(h, limit, window, i, j - 1);
      assert Follows(h, j, window);
    }
  }

  // What gets in

  /** The keys whose window is open. */
  function OpenKeys(entries: Entries, now: Time, window: int): set<Key> {
    set key | key in entries && now < entries[key].windowStarted + window
  }

  lemma AdmitIff(entries: Entries, account: Key, client: Key, now: Time, l: Limits)
    ensures Live(entries, now, l).Keys == OpenKeys(entries, now, l.window)
    ensures var open := OpenKeys(entries, now, l.window);
            (Admit(Live(entries, now, l), account, client, now, l).Some?
             <==> (account in open ==> entries[account].attempts < l.perAccount)
                  && (client in open ==> entries[client].attempts < l.perClient)
                  && |open| + (if account in open then 0 else 1) + (if client in open then 0 else 1) <= l.maxEntries)
  {
    var live := Live(entries, now, l);
    assert live.Keys == OpenKeys(entries, now, l.window);
    assert |live| == |live.Keys|;
  }

  /**
   An attempt gets in exactly when neither its account nor its client has used up its limit in an
   open window, and there is room beside the open windows for those that it opens.
   */
  lemma AllowedIff(entries: Entries, username: string, client: string, now: Time, l: Limits, after: Entries, allowed: bool)
    requires LazyStep(entries, Attempt(username, client, now), l, after, allowed)
    ensures var (open, x, y) := (OpenKeys(entries, now, l.window), AccountKey(username), ClientKey(client));
            (allowed
             <==> (x in open ==> entries[x].attempts < l.perAccount)
                  && (y in open ==> entries[y].attempts < l.perClient)
                  && |open| + (if x in open then 0 else 1) + (if y in open then 0 else 1) <= l.maxEntries)
  {
    AdmitIff(entries, AccountKey(username), ClientKey(client), now, l);
  }

  /** An attempt that gets in adds one to both counts, in the open window or a new one; all else stays. */
  lemma AllowedCounts(
      entries: Entries, username: string, client: string, now: Time, l: Limits, after: Entries, allowed: bool, key: Key)
    requires LazyStep(entries, Attempt(username, client, now), l, after, allowed) && l.window > 0
    ensures var open := OpenKeys(entries, now, l.window);
            if allowed && (key == AccountKey(username) || key == ClientKey(client)) then
              && key in OpenKeys(after, now, l.window)
              && after[key] == if key in open then Entry(entries[key].windowStarted, entries[key].attempts + 1)
                               else Entry(now, 1)
            else
              && (key in OpenKeys(after, now, l.window) <==> key in open)
              && (key in open ==> after[key] == entries[key])
  {
    hide AccountKey, ClientKey;
    KeysDiffer(username, client);
    var (x, y) := (AccountKey(username), ClientKey(client));
    AdmitIff(entries, x, y, now, l);
    LiveIsOpen(entries, now, l, key);
    LiveIsOpen(after, now, l, key);
    hide Live, OpenKeys;
  }

  lemma LiveIsOpen(entries: Entries, now: Time, l: Limits, key: Key)
    ensures key in Live(entries, now, l) <==> key in OpenKeys(entries, now, l.window)
    ensures key in OpenKeys(entries, now, l.window) ==>
              key in entries && Live(entries, now, l)[key] == entries[key]
  {
  }

  /** The admissions of a key whose window is open. */
  function OpenAdmissions(h: seq<Admission>, now: Time, window: int): nat {
    if h == [] then 0
    else OpenAdmissions(h[..|h| - 1], now, window) + if now < h[|h| - 1].window + window then 1 else 0
  }

  /** They are all of the last window, which counts them. */
  lemma {:induction false} OpenAreCounted(h: seq<Admission>, now: Time, limit: int, window: int)
    requires Windowed(h, limit, window) && (h != [] ==> h[|h| - 1].at <= now)
    ensures OpenAdmissions(h, now, window)
         == if h != [] && now < h[|h| - 1].window + window then h[|h| - 1].count else 0
  {
    if h != [] {
      var n := |h| - 1;
      assert InWindow(h[n], limit, window);
      if n > 0 {
        assert Follows(h, n, window) && InWindow(h[n - 1], limit, window);
        WindowedPrefix(h, limit, window);
        OpenAreCounted(h[..n], now, limit, window);
      }
    }
  }

  lemma WindowedPrefix(h: seq<Admission>, limit: int, window: int)
    requires Windowed(h, limit, window) && h != []
    ensures Windowed(h[..|h| - 1], limit, window)
  {
    var before := h[..|h| - 1];
    forall i | 0 < i < |before| ensures Follows(before, i, window) {
      assert Follows(h, i, window);
    }
  }

  /** The open window of a key in a run's map counts its open admissions. */
  lemma OpenWindowCounts(ops: seq<Op>, key: Key, l: Limits, now: Time)
    requires ValidLimits(l) && Monotone(ops) && ClockAtMost(ops, now)
    ensures var open := OpenAdmissions(History(ops, key, l), now, l.window);
            if key in OpenKeys(Run(ops, l), now, l.window) then open == Run(ops, l)[key].attempts else open == 0
  {
    hide Run, History, OpenAdmissions, Windowed;
    RunIsWindowed(ops, key, l, now);
    OpenAreCounted(History(ops, key, l), now, LimitOf(key, l), l.window);
  }

  /**
   Over runs: the next attempt is admitted exactly when fewer admissions than the limit lie in the
   open window of its account, since the account's last success, and of its client, and there is room.
   */
  lemma NextIsAdmittedIff(ops: seq<Op>, username: string, client: string, now: Time, l: Limits)
    requires ValidLimits(l) && Monotone(ops) && ClockAtMost(ops, now)
    ensures var (open, x, y) := (OpenKeys(Run(ops, l), now, l.window), AccountKey(username), ClientKey(client));
            (Admitted(ops + [Attempt(username, client, now)], l)
             <==> OpenAdmissions(History(ops, x, l), now, l.window) < l.perAccount
                  && OpenAdmissions(History(ops, y, l), now, l.window) < l.perClient
                  && |open| + (if x in open then 0 else 1) + (if y in open then 0 else 1) <= l.maxEntries)
  {
    hide AccountKey, ClientKey, Run, History, OpenAdmissions, OpenKeys, Live, Admit;
    var op := Attempt(username, client, now);
    assert (ops + [op])[..|ops|] == ops;
    OpenWindowCounts(ops, AccountKey(username), l, now);
    OpenWindowCounts(ops, ClientKey(client), l, now);
    AdmitIff(Run(ops, l), AccountKey(username), ClientKey(client), now, l);
  }

  /** Five attempts are five: the fifth of an account's limit of 5 gets in, the sixth does not. */
  lemma FifthOfFive(now: Time)
    requires 0 <= now < 60
    ensures var l := Limits(60, 5, 100, 1000);
            var entries: Entries := map[AccountKey("alice") := Entry(0, 4), ClientKey("10.0.0.1") := Entry(0, 4)];
            var full: Entries := map[AccountKey("alice") := Entry(0, 5), ClientKey("10.0.0.1") := Entry(0, 5)];
            && Step(entries, Attempt("alice", "10.0.0.1", now), l).1
            && !Step(full, Attempt("alice", "10.0.0.1", now), l).1
  {
    hide AccountKey, ClientKey, Live, Admit;
    var (x, y) := (AccountKey("alice"), ClientKey("10.0.0.1"));
    KeysDiffer("alice", "10.0.0.1");
    var l := Limits(60, 5, 100, 1000);
    var entries: Entries := map[x := Entry(0, 4), y := Entry(0, 4)];
    var full: Entries := map[x := Entry(0, 5), y := Entry(0, 5)];
    assert OpenKeys(entries, now, 60) == {x, y} == OpenKeys(full, now, 60);
    AdmitIff(entries, x, y, now, l);
    AdmitIff(full, x, y, now, l);
  }

  /** Usernames share a budget without regard to white space around them and to ASCII case. */
  lemma KeysAre(username: string, space: char, client: string)
    requires IsSpace(space)
    ensures AccountKey([space] + username) == AccountKey(username)
    ensures AccountKey(ToLower(username)) == AccountKey(username)
    ensures |AccountKey(username)| >= 8 && AccountKey(username)[..8] == "account\0"
    ensures ClientKey(client) == "client\0" + client
  {
    hide IsSpace;
    var s := [space] + username;
    assert s[1..] == username;
    LowerKeepsTrimming(username);
    assert AccountKey(username)[..8] == "account\0";
  }

  lemma SpacesStay(s: string)
    ensures forall i | 0 <= i < |s| :: IsSpace(ToLower(s)[i]) == IsSpace(s[i])
  {
  }

  lemma {:induction false} LeftOfLower(s: string)
    ensures TrimLeft(ToLower(s)) == ToLower(TrimLeft(s))
  {
    SpacesStay(s);
    hide IsSpace;
    if s != "" {
      LeftOfLower(s[1..]);
      assert ToLower(s)[1..] == ToLower(s[1..]);
    }
  }

  lemma {:induction false} RightOfLower(s: string)
    ensures TrimRight(ToLower(s)) == ToLower(TrimRight(s))
  {
    SpacesStay(s);
    hide IsSpace;
    if s != "" {
      RightOfLower(s[..|s| - 1]);
      assert ToLower(s)[..|s| - 1] == ToLower(s[..|s| - 1]);
    }
  }

  lemma LowerKeepsTrimming(s: string)
    ensures ToLower(TrimRight(TrimLeft(ToLower(s)))) == ToLower(TrimRight(TrimLeft(s)))
  {
    LeftOfLower(s);
    RightOfLower(TrimLeft(s));
    var t := TrimRight(TrimLeft(s));
    assert ToLower(ToLower(t)) == ToLower(t);
  }
}
