/** The authentication attempt limiter (internal/httpserver/auth_limit.go). Times are nanoseconds since the zero time. */
module AuthLimiter {
  import opened Wrappers

  const IP_ATTEMPTS: nat := 60
  const ACCOUNT_ATTEMPTS: nat := 20
  const WINDOW: nat := 60_000_000_000

  /** A fixed window; the zero value stands for a key that has none. */
  datatype Window = Window(count: nat, reset: nat)

  datatype Key = Key(value: string, limit: nat)

  datatype Attempt = Attempt(ip: string, account: string, now: nat)

  datatype Answer = Allowed | Denied(retryAfter: nat)

  datatype Table = Table(windows: map<string, Window>, nextGC: nat)

  const EMPTY := Table(map[], 0)

  /** The account is already trimmed and lower-cased; an empty one is not limited. */
  function Keys(attempt: Attempt): (keys: seq<Key>)
    ensures |keys| == if attempt.account == "" then 1 else 2
    ensures forall i, j :: 0 <= i < j < |keys| ==> keys[i].value != keys[j].value
    ensures forall key :: key in keys ==> key.limit == LimitOf(key.value)
  {
    assert ("ip:" + attempt.ip)[0] == 'i' && ("account:" + attempt.account)[0] == 'a';
    [Key("ip:" + attempt.ip, IP_ATTEMPTS)]
    + if attempt.account == "" then [] else [Key("account:" + attempt.account, ACCOUNT_ATTEMPTS)]
  }

  /** The limit a key stands under, read off its text. */
  function LimitOf(value: string): nat {
    if |value| > 0 && value[0] == 'i' then IP_ATTEMPTS else ACCOUNT_ATTEMPTS
  }

  predicate Charges(attempt: Attempt, value: string) {
    exists key :: key in Keys(attempt) && key.value == value
  }

  function WindowOf(windows: map<string, Window>, value: string): Window {
    if value in windows then windows[value] else Window(0, 0)
  }

  predicate Live(window: Window, now: nat) {
    window.reset > now
  }

  // ---------------------------------------------------------------- one attempt

  function Pruned(windows: map<string, Window>, now: nat): map<string, Window> {
    map value | value in windows && Live(windows[value], now) :: windows[value]
  }

  /** The tables the check works on: swept or not, by the schedule given. */
  function Swept(t: Table, now: nat, sweeps: bool): Table {
    if sweeps && t.nextGC <= now then Table(Pruned(t.windows, now), now + WINDOW) else t
  }

  predicate Full(windows: map<string, Window>, key: Key, now: nat) {
    Live(WindowOf(windows, key.value), now) && WindowOf(windows, key.value).count >= key.limit
  }

  /** The answer is the time to wait for the first full window. */
  function Verdict(windows: map<string, Window>, keys: seq<Key>, now: nat): Answer {
    if keys == [] then Allowed
    else if Full(windows, keys[0], now) then Denied(WindowOf(windows, keys[0].value).reset - now)
    else Verdict(windows, keys[1..], now)
  }

  function Charged(window: Window, now: nat): Window {
    if Live(window, now) then Window(window.count + 1, window.reset) else Window(1, now + WINDOW)
  }

  function AllCharged(windows: map<string, Window>, keys: seq<Key>, now: nat): map<string, Window> {
    if keys == [] then windows
    else
      var rest := AllCharged(windows, keys[..|keys| - 1], now);
      var last := keys[|keys| - 1].value;
      rest[last := Charged(WindowOf(rest, last), now)]
  }

  function Next(t: Table, attempt: Attempt, sweeps: bool): (Table, Answer) {
    var swept := Swept(t, attempt.now, sweeps);
    var answer := Verdict(swept.windows, Keys(attempt), attempt.now);
    (if answer.Allowed? then swept.(windows := AllCharged(swept.windows, Keys(attempt), attempt.now)) else swept, answer)
  }

  class AuthAttemptLimiter {
    const normalise: string -> string
    var windows: map<string, Window>
    var nextGC: nat

    constructor (normalise: string -> string)
      ensures State() == EMPTY && this.normalise == normalise
    {
      this.normalise, windows, nextGC := normalise, map[], 0;
    }

    function State(): Table
      reads this
    {
      Table(windows, nextGC)
    }

    /** allow, under the mutex: sweep if due, check every key, and only then charge every key. */
    method Allow(ip: string, username: string, now: nat) returns (answer: Answer)
      modifies this
      ensures (State(), answer) == Next(old(State()), Attempt(ip, normalise(username), now), true)
    {
      var keys := Keys(Attempt(ip, normalise(username), now));
      if nextGC <= now {
        Sweep(now);
        nextGC := now + WINDOW;
      }
      answer := Check(keys, now);
      if answer.Allowed? {
        Charge(keys, now);
      }
    }

    /** The first full window decides. */
    method Check(keys: seq<Key>, now: nat) returns (answer: Answer)
      ensures answer == Verdict(windows, keys, now)
    {
      for i := 0 to |keys|
        invariant Verdict(windows, keys, now) == Verdict(windows, keys[i..], now)
      {
        if Full(windows, keys[i], now) {
          return Denied(WindowOf(windows, keys[i].value).reset - now);
        }
      }
      return Allowed;
    }

    /** One more attempt in the window of every key, opening a new window where the old one is over. */
    method Charge(keys: seq<Key>, now: nat)
      modifies this`windows
      ensures windows == AllCharged(old(windows), keys, now)
    {
      for i := 0 to |keys|
        invariant windows == AllCharged(old(windows), keys[..i], now)
      {
        var window := WindowOf(windows, keys[i].value);
        if !Live(window, now) {
          window := Window(0, now + WINDOW);
        }
        window := window.(count := window.count + 1);
        windows := windows[keys[i].value := window];
        assert keys[..i + 1][..i] == keys[..i];
      }
      assert keys[..|keys|] == keys;
    }

    /** Deletes the expired windows, one entry of the table at a time. */
    method Sweep(now: nat)
      modifies this`windows
      ensures windows == Pruned(old(windows), now)
    {
      var pending := windows.Keys;
      while pending != {}
        invariant pending <= windows.Keys
        invariant windows == map v | v in old(windows) && (v in pending || Live(old(windows)[v], now)) :: old(windows)[v]
        decreases |pending|
      {
        var value :| value in pending;
        pending := pending - {value};
        if !Live(windows[value], now) {
          windows := windows - {value};
        }
      }
    }
  }

  /** Charging is pointwise: each key of the attempt once, nothing else. */
  lemma {:induction false} AllChargedAt(windows: map<string, Window>, keys: seq<Key>, now: nat, value: string)
    requires forall i, j :: 0 <= i < j < |keys| ==> keys[i].value != keys[j].value
    ensures WindowOf(AllCharged(windows, keys, now), value) ==
            if exists key :: key in keys && key.value == value then Charged(WindowOf(windows, value), now)
            else WindowOf(windows, value)
    decreases |keys|
  {
    if keys != [] {
      var last := |keys| - 1;
      AllChargedAt(windows, keys[..last], now, value);
      assert forall key :: key in keys <==> key in keys[..last] || key == keys[last];
    }
  }

  /** An attempt is let through exactly when no window it would charge is full. */
  lemma {:induction false} VerdictMeans(windows: map<string, Window>, keys: seq<Key>, now: nat)
    ensures Verdict(windows, keys, now).Allowed? <==> forall key :: key in keys ==> !Full(windows, key, now)
    ensures forall d :: Verdict(windows, keys, now) == Denied(d) ==>
              exists key :: key in keys && Full(windows, key, now) && now + d == WindowOf(windows, key.value).reset
  {
    if keys != [] {
      VerdictMeans(windows, keys[1..], now);
      assert forall key :: key in keys <==> key == keys[0] || key in keys[1..];
      assert keys[0] in keys;
    }
  }

  /** What one attempt does to any key: only an admitted attempt charges, and it charges both of its keys. */
  lemma NextAt(t: Table, attempt: Attempt, sweeps: bool, value: string)
    ensures
      var (k, answer) := Next(t, attempt, sweeps);
      var before := WindowOf(Swept(t, attempt.now, sweeps).windows, value);
      WindowOf(k.windows, value) ==
        if answer.Allowed? && Charges(attempt, value) then Charged(before, attempt.now) else before
  {
    AllChargedAt(Swept(t, attempt.now, sweeps).windows, Keys(attempt), attempt.now, value);
  }

  /** The keys of an attempt and their limits. */
  lemma KeysAre(attempt: Attempt)
    ensures Keys(attempt)[0] == Key("ip:" + attempt.ip, 60)
    ensures attempt.account != "" ==> Keys(attempt)[1] == Key("account:" + attempt.account, 20)
    ensures forall v :: Charges(attempt, v) <==>
              v == "ip:" + attempt.ip || (attempt.account != "" && v == "account:" + attempt.account)
  {
    assert Keys(attempt)[0] in Keys(attempt) && (attempt.account != "" ==> Keys(attempt)[1] in Keys(attempt));
  }

  /** The address is checked before the account. */
  lemma {:induction false} VerdictIs(windows: map<string, Window>, attempt: Attempt)
    ensures
      var now, a, b := attempt.now, WindowOf(windows, "ip:" + attempt.ip), WindowOf(windows, "account:" + attempt.account);
      Verdict(windows, Keys(attempt), now) ==
        if a.reset > now && a.count >= 60 then Denied(a.reset - now)
        else if attempt.account != "" && b.reset > now && b.count >= 20 then Denied(b.reset - now)
        else Allowed
  {
    var keys := Keys(attempt);
    KeysAre(attempt);
    if attempt.account == "" {
      assert keys[1..] == [];
    } else {
      assert keys[1..] == [keys[1]];
      assert keys[1..][1..] == [];
      assert Verdict(windows, keys[1..], attempt.now) ==
             if Full(windows, keys[1], attempt.now) then Denied(WindowOf(windows, keys[1].value).reset - attempt.now)
             else Verdict(windows, [], attempt.now);
    }
  }

  /**
   One attempt, from the tables before to those after: it is refused while the window of the address holds 60, or
   that of a named account 20, for as long as the first of these windows still runs; else both take one more, in a window
   of a minute that begins now if the old one is over. Once a minute windows that are over are dropped.
   */
  lemma AttemptMeans(t: Table, attempt: Attempt, value: string)
    ensures
      var (k, answer) := Next(t, attempt, true);
      var now, a, b := attempt.now, "ip:" + attempt.ip, "account:" + attempt.account;
      var ofIP, ofAccount, window := WindowOf(t.windows, a), WindowOf(t.windows, b), WindowOf(t.windows, value);
      && answer == (if ofIP.reset > now && ofIP.count >= 60 then Denied(ofIP.reset - now)
                    else if attempt.account != "" && ofAccount.reset > now && ofAccount.count >= 20
                    then Denied(ofAccount.reset - now)
                    else Allowed)
      && WindowOf(k.windows, value) ==
           (if answer.Allowed? && (value == a || (attempt.account != "" && value == b)) then
              if window.reset > now then Window(window.count + 1, window.reset) else Window(1, now + 60_000_000_000)
            else if t.nextGC <= now && window.reset <= now then Window(0, 0)
            else window)
      && k.nextGC == if t.nextGC <= now then now + 60_000_000_000 else t.nextGC
  {
    var swept := Swept(t, attempt.now, true);
    KeysAre(attempt);
    VerdictIs(swept.windows, attempt);
    NextAt(t, attempt, true, value);
    hide Verdict;
    hide AllCharged;
    hide Charges;
    hide Keys;
  }

  /** A denied attempt charges neither key: every window that still counts is as before, whoever it belongs to. */
  lemma DeniedChargesNothing(t: Table, attempt: Attempt, sweeps: bool, value: string)
    requires Next(t, attempt, sweeps).1.Denied?
    ensures
      var (k, answer) := Next(t, attempt, sweeps);
      && (Live(WindowOf(t.windows, value), attempt.now) || Live(WindowOf(k.windows, value), attempt.now) ==>
            WindowOf(k.windows, value) == WindowOf(t.windows, value))
      && exists key :: key in Keys(attempt) && Full(t.windows, key, attempt.now)
           && attempt.now + answer.retryAfter == WindowOf(t.windows, key.value).reset
  {
    NextAt(t, attempt, sweeps, value);
    VerdictMeans(Swept(t, attempt.now, sweeps).windows, Keys(attempt), attempt.now);
  }

  // ---------------------------------------------------------------- traces

  ghost predicate Ordered(trace: seq<Attempt>) {
    forall i, j :: 0 <= i < j < |trace| ==> trace[i].now <= trace[j].now
  }

  function After(t: Table, trace: seq<Attempt>, sweeps: bool): Table
    decreases |trace|
  {
    if trace == [] then t else After(Next(t, trace[0], sweeps).0, trace[1..], sweeps)
  }

  function Answers(t: Table, trace: seq<Attempt>, sweeps: bool): (answers: seq<Answer>)
    ensures |answers| == |trace|
    decreases |trace|
  {
    if trace == [] then []
    else [Next(t, trace[0], sweeps).1] + Answers(Next(t, trace[0], sweeps).0, trace[1..], sweeps)
  }

  /** The tables agree on every window that can still count from `now` on. */
  ghost predicate Alike(a: Table, b: Table, now: nat) {
    forall v :: Live(WindowOf(a.windows, v), now) || Live(WindowOf(b.windows, v), now) ==>
                  WindowOf(a.windows, v) == WindowOf(b.windows, v)
  }

  lemma {:induction false} AlikeVerdicts(a: Table, b: Table, keys: seq<Key>, now: nat)
    requires Alike(a, b, now)
    ensures Verdict(a.windows, keys, now) == Verdict(b.windows, keys, now)
    decreases |keys|
  {
    if keys != [] {
      AlikeVerdicts(a, b, keys[1..], now);
    }
  }

  lemma AlikeNext(a: Table, b: Table, attempt: Attempt, sweepsA: bool, sweepsB: bool)
    requires Alike(a, b, attempt.now)
    ensures Next(a, attempt, sweepsA).1 == Next(b, attempt, sweepsB).1
    ensures Alike(Next(a, attempt, sweepsA).0, Next(b, attempt, sweepsB).0, attempt.now)
  {
    var now := attempt.now;
    var sweptA, sweptB := Swept(a, now, sweepsA), Swept(b, now, sweepsB);
    assert Alike(sweptA, a, now) && Alike(sweptB, b, now);
    assert Alike(sweptA, sweptB, now) by {
      hide Swept;
    }
    AlikeVerdicts(sweptA, sweptB, Keys(attempt), now);
    var afterA, afterB := Next(a, attempt, sweepsA).0, Next(b, attempt, sweepsB).0;
    forall v ensures Live(WindowOf(afterA.windows, v), now) || Live(WindowOf(afterB.windows, v), now) ==>
                       WindowOf(afterA.windows, v) == WindowOf(afterB.windows, v)
    {
      NextAt(a, attempt, sweepsA, v);
      NextAt(b, attempt, sweepsB, v);
    }
  }

  lemma {:induction false} AlikeAnswers(a: Table, b: Table, trace: seq<Attempt>, sweepsA: bool, sweepsB: bool)
    requires Ordered(trace)
    requires trace != [] ==> Alike(a, b, trace[0].now)
    ensures Answers(a, trace, sweepsA) == Answers(b, trace, sweepsB)
    decreases |trace|
  {
    if trace != [] {
      AlikeNext(a, b, trace[0], sweepsA, sweepsB);
      AlikeAnswers(Next(a, trace[0], sweepsA).0, Next(b, trace[0], sweepsB).0, trace[1..], sweepsA, sweepsB);
    }
  }

  /**
   Pruning is unobservable: from any table, under a clock that does not run backwards, the limiter that deletes
   expired windows gives the same answers, retry times included, as one that never deletes any.
   */
  lemma {:induction false} PruningIsUnobservable(t: Table, trace: seq<Attempt>)
    requires Ordered(trace)
    ensures Answers(t, trace, true) == Answers(t, trace, false)
  {
    AlikeAnswers(t, t, trace, true, false);
  }

  // ---------------------------------------------------------------- attempts that arrive out of order

  ghost predicate Nondecreasing(times: seq<nat>) {
    forall i, j :: 0 <= i < j < |times| ==> times[i] <= times[j]
  }

  ghost predicate Timed(trace: seq<Attempt>, times: seq<nat>) {
    |trace| == |times| && forall i :: 0 <= i < |trace| ==> trace[i].now == times[i]
  }

  lemma {:induction false} FirstDescent(times: seq<nat>) returns (late: nat)
    requires !Nondecreasing(times)
    ensures 0 < late < |times| && Nondecreasing(times[..late]) && times[late - 1] > times[late]
    decreases |times|
  {
    var front := times[..|times| - 1];
    if Nondecreasing(front) {
      late := |front|;
      var i, j :| 0 <= i < j < |times| && times[i] > times[j];
      assert j == late && front[i] == times[i] && front[late - 1] == times[late - 1];
    } else {
      late := FirstDescent(front);
      assert front[..late] == times[..late];
    }
  }

  const HELD := "ip:a"

  /** Attempts of one address up to a peak, and then an earlier one of another. */
  ghost predicate Staged(trace: seq<Attempt>, late: nat, peak: nat) {
    && late < |trace| && trace[late] == Attempt("a", "", trace[late].now) && trace[late].now < peak
    && forall i :: 0 <= i < late ==> trace[i] == Attempt("b", "", trace[i].now) && trace[i].now <= peak
  }

  lemma StagedKeys(attempt: Attempt)
    ensures attempt == Attempt("b", "", attempt.now) ==> !Charges(attempt, HELD)
    ensures attempt == Attempt("a", "", attempt.now) ==> Keys(attempt) == [Key(HELD, IP_ATTEMPTS)]
  {
    assert "ip:" + "a" == HELD && HELD[3] == 'a' && ("ip:" + "b")[3] == 'b';
  }

  /** Never pruned, the full window is still there for the late attempt. */
  lemma {:induction false} LateIsDenied(t: Table, trace: seq<Attempt>, late: nat, peak: nat)
    requires Staged(trace, late, peak) && WindowOf(t.windows, HELD) == Window(IP_ATTEMPTS, peak)
    ensures Answers(t, trace, false)[late].Denied?
    decreases late
  {
    StagedKeys(trace[0]);
    if late == 0 {
      VerdictMeans(t.windows, Keys(trace[0]), trace[0].now);
      assert Keys(trace[0])[0] in Keys(trace[0]);
    } else {
      NextAt(t, trace[0], false, HELD);
      hide Next;
      LateIsDenied(Next(t, trace[0], false).0, trace[1..], late - 1, peak);
    }
  }

  /** Pruned at the peak, it is gone. */
  lemma {:induction false} LateIsAllowed(t: Table, trace: seq<Attempt>, late: nat, peak: nat)
    requires Staged(trace, late, peak)
    requires
      || WindowOf(t.windows, HELD) == Window(0, 0)
      || (late > 0 && trace[late - 1].now == peak && t == Table(t.windows, peak)
          && WindowOf(t.windows, HELD) == Window(IP_ATTEMPTS, peak))
    ensures Answers(t, trace, true)[late] == Allowed
    decreases late
  {
    StagedKeys(trace[0]);
    if late == 0 {
      VerdictMeans(Swept(t, trace[0].now, true).windows, Keys(trace[0]), trace[0].now);
    } else {
      NextAt(t, trace[0], true, HELD);
      assert trace[0].now < peak ==> Swept(t, trace[0].now, true) == t || WindowOf(t.windows, HELD) == Window(0, 0);
      LateIsAllowed(Next(t, trace[0], true).0, trace[1..], late - 1, peak);
    }
  }

  lemma DescentShows(times: seq<nat>) returns (t: Table, trace: seq<Attempt>)
    requires !Nondecreasing(times)
    ensures Timed(trace, times) && Answers(t, trace, true) != Answers(t, trace, false)
  {
    var late := FirstDescent(times);
    var peak := times[late - 1];
    assert forall i :: 0 <= i < late ==> times[..late][i] == times[i];
    trace := seq(|times|, i requires 0 <= i < |times| => Attempt(if i == late then "a" else "b", "", times[i]));
    t := Table(map[HELD := Window(IP_ATTEMPTS, peak)], peak);
    assert Staged(trace, late, peak);
    LateIsDenied(t, trace, late, peak);
    LateIsAllowed(t, trace, late, peak);
  }

  /**
   When pruning shows: the clock is read before the mutex is taken, so attempts can reach the table out of order.
   Pruning is unobservable, in every table and for whoever makes the attempts at these times, if and only if the
   times do not run backwards.
   */
  lemma PruningIsUnobservableExactly(times: seq<nat>)
    ensures
      (forall t: Table, trace: seq<Attempt> :: Timed(trace, times) ==> Answers(t, trace, true) == Answers(t, trace, false))
      <==> Nondecreasing(times)
  {
    if Nondecreasing(times) {
      forall t: Table, trace: seq<Attempt> | Timed(trace, times) ensures Answers(t, trace, true) == Answers(t, trace, false) {
        PruningIsUnobservable(t, trace);
      }
    } else {
      var t, trace := DescentShows(times);
    }
  }

  // ---------------------------------------------------------------- the rate bound

  /** How many attempts charging the key are let through at times in [from, until). */
  function Admitted(t: Table, trace: seq<Attempt>, value: string, from: nat, until: nat): nat
    decreases |trace|
  {
    if trace == [] then 0
    else
      var (k, answer) := Next(t, trace[0], true);
      (if answer.Allowed? && Charges(trace[0], value) && from <= trace[0].now < until then 1 else 0)
      + Admitted(k, trace[1..], value, from, until)
  }

  ghost predicate Counted(t: Table) {
    forall v :: v in t.windows ==> 1 <= t.windows[v].count <= LimitOf(v)
  }

  lemma CountedNext(t: Table, attempt: Attempt)
    requires Counted(t)
    ensures Counted(Next(t, attempt, true).0)
  {
    var swept := Swept(t, attempt.now, true);
    var (k, answer) := Next(t, attempt, true);
    VerdictMeans(swept.windows, Keys(attempt), attempt.now);
    forall v | v in k.windows ensures 1 <= k.windows[v].count <= LimitOf(v) {
      NextAt(t, attempt, true, v);
      if !(answer.Allowed? && Charges(attempt, v)) && v !in swept.windows {
        UnchargedKeys(swept.windows, Keys(attempt), attempt.now, v);
      }
    }
  }

  lemma {:induction false} UnchargedKeys(windows: map<string, Window>, keys: seq<Key>, now: nat, value: string)
    requires value !in windows && forall key :: key in keys ==> key.value != value
    ensures value !in AllCharged(windows, keys, now)
    decreases |keys|
  {
    if keys != [] {
      UnchargedKeys(windows, keys[..|keys| - 1], now, value);
    }
  }

  /** How many more attempts a window can let through before `until`, one fresh window included. */
  function Room(window: Window, limit: nat, now: nat, until: nat): int {
    if !Live(window, now) then limit
    else if until <= window.reset then limit - window.count
    else 2 * limit - window.count
  }

  /** One attempt takes from the room what it lets through, and the window stays near enough to the end. */
  lemma RoomStep(t: Table, attempt: Attempt, value: string, now: nat, until: nat)
    requires Counted(t) && now <= attempt.now < until
    requires until <= (if Live(WindowOf(t.windows, value), now) then WindowOf(t.windows, value).reset else now) + WINDOW
    ensures
      var (k, answer) := Next(t, attempt, true);
      var before, after := WindowOf(t.windows, value), WindowOf(k.windows, value);
      && until <= (if Live(after, attempt.now) then after.reset else attempt.now) + WINDOW
      && (if answer.Allowed? && Charges(attempt, value) then 1 else 0) + Room(after, LimitOf(value), attempt.now, until)
         <= Room(before, LimitOf(value), now, until)
  {
    NextAt(t, attempt, true, value);
    VerdictMeans(Swept(t, attempt.now, true).windows, Keys(attempt), attempt.now);
  }

  lemma {:induction false} AdmittedAtMostRoom(t: Table, trace: seq<Attempt>, value: string, now: nat, from: nat, until: nat)
    requires Ordered(trace) && Counted(t)
    requires trace != [] ==> now <= trace[0].now
    requires until <= (if Live(WindowOf(t.windows, value), now) then WindowOf(t.windows, value).reset else now) + WINDOW
    ensures Admitted(t, trace, value, from, until) <= Room(WindowOf(t.windows, value), LimitOf(value), now, until)
    decreases |trace|
  {
    if trace != [] && until <= trace[0].now {
      NoneAdmitted(t, trace, value, from, until);
    } else if trace != [] {
      hide Next;
      hide Charges;
      CountedNext(t, trace[0]);
      RoomStep(t, trace[0], value, now, until);
      AdmittedAtMostRoom(Next(t, trace[0], true).0, trace[1..], value, trace[0].now, from, until);
    }
  }

  lemma {:induction false} NoneAdmitted(t: Table, trace: seq<Attempt>, value: string, from: nat, until: nat)
    requires Ordered(trace) && trace != [] && until <= trace[0].now
    ensures Admitted(t, trace, value, from, until) == 0
    decreases |trace|
  {
    if |trace| > 1 {
      NoneAdmitted(Next(t, trace[0], true).0, trace[1..], value, from, until);
    }
  }

  /**
   The real rate bound: whatever attempts are made, on this key and on others, and whatever is pruned, any
   half-open interval of the length of a window lets through at most twice the limit less one.
   */
  lemma {:induction false} RateBound(t: Table, trace: seq<Attempt>, value: string, from: nat)
    requires Ordered(trace) && Counted(t)
    ensures Admitted(t, trace, value, from, from + WINDOW) <= 2 * LimitOf(value) - 1
    decreases |trace|
  {
    if trace != [] {
      if trace[0].now < from {
        CountedNext(t, trace[0]);
        RateBound(Next(t, trace[0], true).0, trace[1..], value, from);
      } else {
        AdmittedAtMostRoom(t, trace, value, trace[0].now, from, from + WINDOW);
      }
    }
  }

  // ---------------------------------------------------------------- the bound is reached

  function Times(attempt: Attempt, n: nat): (trace: seq<Attempt>)
    ensures |trace| == n && forall i :: 0 <= i < n ==> trace[i] == attempt
  {
    seq(n, _ => attempt)
  }

  /** n more attempts like this one fit into the windows of both keys. */
  predicate Fits(t: Table, attempt: Attempt, n: nat) {
    forall key :: key in Keys(attempt) ==>
      (if Live(WindowOf(t.windows, key.value), attempt.now) then WindowOf(t.windows, key.value).count else 0) + n <= key.limit
  }

  /** The window of a key after n attempts at one time. */
  function Loaded(window: Window, now: nat, n: nat): Window {
    if n == 0 then window else if Live(window, now) then Window(window.count + n, window.reset) else Window(n, now + WINDOW)
  }

  /** Every window the attempt charges has taken n more. */
  ghost predicate AllLoaded(t: Table, k: Table, attempt: Attempt, n: nat) {
    && (forall v :: Charges(attempt, v) ==> WindowOf(k.windows, v) == Loaded(WindowOf(t.windows, v), attempt.now, n))
    && (n > 0 ==> k.nextGC == if t.nextGC <= attempt.now then attempt.now + WINDOW else t.nextGC)
  }

  lemma FitsNext(t: Table, attempt: Attempt, n: nat)
    requires n > 0 && Fits(t, attempt, n)
    ensures
      var (k, answer) := Next(t, attempt, true);
      answer.Allowed? && Fits(k, attempt, n - 1) && AllLoaded(t, k, attempt, 1)
  {
    var swept := Swept(t, attempt.now, true);
    var (k, answer) := Next(t, attempt, true);
    VerdictMeans(swept.windows, Keys(attempt), attempt.now);
    assert answer.Allowed?;
    forall v | Charges(attempt, v) ensures WindowOf(k.windows, v) == Loaded(WindowOf(t.windows, v), attempt.now, 1) {
      NextAt(t, attempt, true, v);
    }
    forall key | key in Keys(attempt)
      ensures (if Live(WindowOf(k.windows, key.value), attempt.now) then WindowOf(k.windows, key.value).count else 0)
              + (n - 1) <= key.limit
    {
      assert Charges(attempt, key.value);
    }
  }

  lemma {:induction false} BurstAdmitted(t: Table, attempt: Attempt, n: nat, value: string, rest: seq<Attempt>, from: nat, until: nat)
    requires Fits(t, attempt, n) && Charges(attempt, value)
    ensures
      var k := After(t, Times(attempt, n), true);
      && AllLoaded(t, k, attempt, n) && (n == 0 ==> k == t)
      && Admitted(t, Times(attempt, n) + rest, value, from, until) ==
           (if from <= attempt.now < until then n else 0) + Admitted(k, rest, value, from, until)
    decreases n
  {
    var burst := Times(attempt, n);
    if n == 0 {
      assert burst + rest == rest;
    } else {
      FitsNext(t, attempt, n);
      var k := Next(t, attempt, true).0;
      assert burst[1..] == Times(attempt, n - 1);
      assert (burst + rest)[0] == attempt && (burst + rest)[1..] == Times(attempt, n - 1) + rest;
      assert Admitted(t, burst + rest, value, from, until) ==
             (if from <= attempt.now < until then 1 else 0) + Admitted(k, Times(attempt, n - 1) + rest, value, from, until);
      assert After(t, burst, true) == After(k, Times(attempt, n - 1), true);
      hide *;
      BurstAdmitted(k, attempt, n - 1, value, rest, from, until);
      LoadedMore(t, k, After(k, Times(attempt, n - 1), true), attempt, n);
    }
  }

  lemma LoadedMore(t: Table, mid: Table, k: Table, attempt: Attempt, n: nat)
    requires n > 0 && AllLoaded(t, mid, attempt, 1) && AllLoaded(mid, k, attempt, n - 1)
    requires n == 1 ==> k == mid
    ensures AllLoaded(t, k, attempt, n)
  {
    hide Charges;
    hide WindowOf;
  }

  /** The bound cannot be lowered: an account that tries once, then 19 times late in the window, then 20 times in the next. */
  lemma {:induction false} RateBoundIsReached(ip: string, account: string)
    requires account != ""
    ensures
      var first, late, next := Attempt(ip, account, 0), Attempt(ip, account, WINDOW - 1), Attempt(ip, account, WINDOW);
      var trace := Times(first, 1) + (Times(late, 19) + Times(next, 20));
      && Ordered(trace)
      && Admitted(EMPTY, trace, "account:" + account, WINDOW - 1, 2 * WINDOW - 1) == 2 * ACCOUNT_ATTEMPTS - 1
  {
    var first, late, next := Attempt(ip, account, 0), Attempt(ip, account, WINDOW - 1), Attempt(ip, account, WINDOW);
    var a, b := "ip:" + ip, "account:" + account;
    var from, until := WINDOW - 1, 2 * WINDOW - 1;
    hide After;
    hide Next;
    hide Times;
    OneBurst(EMPTY, first, 1, Times(late, 19) + Times(next, 20), from, until);
    var t1 := After(EMPTY, Times(first, 1), true);
    assert WindowOf(t1.windows, a) == Window(1, WINDOW) && WindowOf(t1.windows, b) == Window(1, WINDOW);
    OneBurst(t1, late, 19, Times(next, 20), from, until);
    var t2 := After(t1, Times(late, 19), true);
    assert WindowOf(t2.windows, a) == Window(20, WINDOW) && WindowOf(t2.windows, b) == Window(20, WINDOW);
    OneBurst(t2, next, 20, [], from, until);
    assert Times(next, 20) + [] == Times(next, 20);
  }

  /** An address that names no account: 60 attempts at once pass and the next waits a minute; 119 fit into the interval. */
  lemma {:induction false} AddressBoundIsReached(ip: string)
    ensures
      var first, late, next := Attempt(ip, "", 0), Attempt(ip, "", WINDOW - 1), Attempt(ip, "", WINDOW);
      var trace := Times(first, 1) + (Times(late, 59) + Times(next, 60));
      && Ordered(trace)
      && Admitted(EMPTY, trace, "ip:" + ip, WINDOW - 1, 2 * WINDOW - 1) == 119
      && Admitted(EMPTY, Times(first, 60), "ip:" + ip, 0, 1) == 60
      && Next(After(EMPTY, Times(first, 60), true), first, true).1 == Denied(60_000_000_000)
  {
    var first, late, next := Attempt(ip, "", 0), Attempt(ip, "", WINDOW - 1), Attempt(ip, "", WINDOW);
    var from, until := WINDOW - 1, 2 * WINDOW - 1;
    KeysAre(first);
    hide After;
    hide Times;
    AddressBurst(EMPTY, first, 1, Times(late, 59) + Times(next, 60), from, until);
    var t1 := After(EMPTY, Times(first, 1), true);
    AddressBurst(t1, late, 59, Times(next, 60), from, until);
    var t2 := After(t1, Times(late, 59), true);
    AddressBurst(t2, next, 60, [], from, until);
    assert Times(next, 60) + [] == Times(next, 60);
    AddressBurst(EMPTY, first, 60, [], 0, 1);
    assert Times(first, 60) + [] == Times(first, 60);
    AttemptMeans(After(EMPTY, Times(first, 60), true), first, "ip:" + ip);
  }

  lemma {:induction false} AddressBurst(t: Table, attempt: Attempt, n: nat, rest: seq<Attempt>, from: nat, until: nat)
    requires attempt.account == ""
    requires (if Live(WindowOf(t.windows, "ip:" + attempt.ip), attempt.now)
              then WindowOf(t.windows, "ip:" + attempt.ip).count else 0) + n <= 60
    ensures
      var k := After(t, Times(attempt, n), true);
      && Admitted(t, Times(attempt, n) + rest, "ip:" + attempt.ip, from, until) ==
           (if from <= attempt.now < until then n else 0) + Admitted(k, rest, "ip:" + attempt.ip, from, until)
      && WindowOf(k.windows, "ip:" + attempt.ip) == Loaded(WindowOf(t.windows, "ip:" + attempt.ip), attempt.now, n)
  {
    KeysAre(attempt);
    assert Keys(attempt) == [Key("ip:" + attempt.ip, 60)];
    hide After;
    hide Admitted;
    hide Times;
    BurstAdmitted(t, attempt, n, "ip:" + attempt.ip, rest, from, until);
  }

  lemma {:induction false} OneBurst(t: Table, attempt: Attempt, n: nat, rest: seq<Attempt>, from: nat, until: nat)
    requires attempt.account != ""
    requires (if Live(WindowOf(t.windows, "ip:" + attempt.ip), attempt.now)
              then WindowOf(t.windows, "ip:" + attempt.ip).count else 0) + n <= IP_ATTEMPTS
    requires (if Live(WindowOf(t.windows, "account:" + attempt.account), attempt.now)
              then WindowOf(t.windows, "account:" + attempt.account).count else 0) + n <= ACCOUNT_ATTEMPTS
    ensures
      var k := After(t, Times(attempt, n), true);
      && Admitted(t, Times(attempt, n) + rest, "account:" + attempt.account, from, until) ==
           (if from <= attempt.now < until then n else 0)
           + Admitted(k, rest, "account:" + attempt.account, from, until)
      && forall v :: v == "ip:" + attempt.ip || v == "account:" + attempt.account ==>
           WindowOf(k.windows, v) == Loaded(WindowOf(t.windows, v), attempt.now, n)
  {
    var a, b := "ip:" + attempt.ip, "account:" + attempt.account;
    assert Keys(attempt) == [Key(a, IP_ATTEMPTS), Key(b, ACCOUNT_ATTEMPTS)];
    assert Keys(attempt)[0].value == a && Keys(attempt)[1].value == b;
    hide After;
    hide Admitted;
    hide Times;
    BurstAdmitted(t, attempt, n, b, rest, from, until);
  }

  /**
   The clock is read before the mutex is taken, so attempts can reach the table out of order; then pruning does
   show: the late attempt is let through only because the full window it belongs to has been deleted.
   */
  lemma OutOfOrderPruningShows(a: string, b: string)
    requires a != b
    ensures
      var full := After(EMPTY, Times(Attempt(a, "", 0), IP_ATTEMPTS), true);
      var trace := [Attempt(b, "", WINDOW), Attempt(a, "", WINDOW - 1)];
      Answers(full, trace, true)[1] == Allowed && Answers(full, trace, false)[1] == Denied(1)
  {
    var early, other, late := Attempt(a, "", 0), Attempt(b, "", WINDOW), Attempt(a, "", WINDOW - 1);
    var key := "ip:" + a;
    assert Keys(early) == [Key(key, IP_ATTEMPTS)] && Keys(late) == Keys(early);
    assert Keys(early)[0].value == key;
    assert key[3..] == a && ("ip:" + b)[3..] == b;
    assert !Charges(other, key);
    BurstAdmitted(EMPTY, early, IP_ATTEMPTS, key, [], 0, 1);
    var full := After(EMPTY, Times(early, IP_ATTEMPTS), true);
    assert full.nextGC == WINDOW && WindowOf(full.windows, key) == Window(IP_ATTEMPTS, WINDOW);
    forall sweeps: bool
      ensures Answers(full, [other, late], sweeps)[1] == if sweeps then Allowed else Denied(1)
    {
      var k := Next(full, other, sweeps).0;
      NextAt(full, other, sweeps, key);
      var swept := Swept(k, late.now, sweeps);
      VerdictMeans(swept.windows, Keys(late), late.now);
      assert Keys(late)[0] in Keys(late);
      assert [other, late][1..] == [late];
      assert Answers(full, [other, late], sweeps)[1] == Answers(k, [late], sweeps)[0] == Next(k, late, sweeps).1;
    }
  }

  // ---------------------------------------------------------------- no bound for attempts that arrive out of order

  /** Full bursts of an account that read the clock at 0, each followed by an attempt that prunes their window. */
  function LateRounds(ip: string, other: string, account: string, first: nat, n: nat): seq<Attempt>
    decreases n
  {
    if n == 0 then []
    else Times(Attempt(ip, account, 0), ACCOUNT_ATTEMPTS)
         + ([Attempt(other, "", first * WINDOW)] + LateRounds(ip, other, account, first + 1, n - 1))
  }

  /** The next round can begin: no window of its keys counts, and the attempt that ends it will prune. */
  ghost predicate RoundMayBegin(t: Table, ip: string, other: string, account: string, first: nat) {
    && !Live(WindowOf(t.windows, "ip:" + ip), 0) && !Live(WindowOf(t.windows, "account:" + account), 0)
    && !Live(WindowOf(t.windows, "ip:" + other), first * WINDOW)
    && t.nextGC <= first * WINDOW
  }

  /** A window that has run out stays so while only others are charged. */
  lemma {:induction false} RunOutStays(t: Table, attempt: Attempt, n: nat, value: string, now: nat)
    requires !Live(WindowOf(t.windows, value), now) && !Charges(attempt, value)
    ensures !Live(WindowOf(After(t, Times(attempt, n), true).windows, value), now)
    decreases n
  {
    if n > 0 {
      NextAt(t, attempt, true, value);
      assert Times(attempt, n)[1..] == Times(attempt, n - 1);
      var k := Next(t, attempt, true).0;
      assert !Live(WindowOf(k.windows, value), now);
      hide *;
      RunOutStays(k, attempt, n - 1, value, now);
      AfterOne(t, attempt, n);
    }
  }

  lemma {:induction false} AfterOne(t: Table, attempt: Attempt, n: nat)
    requires n > 0
    ensures After(t, Times(attempt, n), true) == After(Next(t, attempt, true).0, Times(attempt, n - 1), true)
  {
    assert Times(attempt, n)[1..] == Times(attempt, n - 1);
    hide Next;
  }

  /** The attempt of another address that prunes what has run out by then. */
  lemma {:induction false} PruningAttempt(t: Table, other: string, now: nat, value: string)
    requires !Live(WindowOf(t.windows, "ip:" + other), now) && t.nextGC <= now
    ensures
      var (k, answer) := Next(t, Attempt(other, "", now), true);
      && k.nextGC == now + WINDOW
      && (value != "ip:" + other && !Live(WindowOf(t.windows, value), now) ==> WindowOf(k.windows, value) == Window(0, 0))
      && WindowOf(k.windows, "ip:" + other).reset == now + WINDOW
  {
    var attempt := Attempt(other, "", now);
    assert Keys(attempt) == [Key("ip:" + other, IP_ATTEMPTS)];
    assert Keys(attempt)[0] in Keys(attempt) && Charges(attempt, "ip:" + other);
    NextAt(t, attempt, true, value);
    NextAt(t, attempt, true, "ip:" + other);
    VerdictMeans(Swept(t, now, true).windows, Keys(attempt), now);
  }

  /** One round: the whole burst is let through, and the next round can begin. */
  lemma {:induction false} LateRound(t: Table, ip: string, other: string, account: string, first: nat, rest: seq<Attempt>)
    requires first > 0 && account != "" && other != ip && RoundMayBegin(t, ip, other, account, first)
    ensures
      var burst, pruning := Attempt(ip, account, 0), Attempt(other, "", first * WINDOW);
      var k := Next(After(t, Times(burst, ACCOUNT_ATTEMPTS), true), pruning, true).0;
      && RoundMayBegin(k, ip, other, account, first + 1)
      && Admitted(t, Times(burst, ACCOUNT_ATTEMPTS) + ([pruning] + rest), "account:" + account, 0, 1) ==
           ACCOUNT_ATTEMPTS + Admitted(k, rest, "account:" + account, 0, 1)
  {
    var burst, pruning := Attempt(ip, account, 0), Attempt(other, "", first * WINDOW);
    var a, b, c := "ip:" + ip, "account:" + account, "ip:" + other;
    assert a[0] == 'i' && b[0] == 'a' && c[0] == 'i' && a[3..] == ip && c[3..] == other;
    assert Keys(burst) == [Key(a, IP_ATTEMPTS), Key(b, ACCOUNT_ATTEMPTS)];
    assert Keys(burst)[0] in Keys(burst) && Keys(burst)[1] in Keys(burst);
    assert Charges(burst, a) && Charges(burst, b) && !Charges(burst, c);
    assert Keys(pruning) == [Key(c, IP_ATTEMPTS)] && !Charges(pruning, b);
    BurstAdmitted(t, burst, ACCOUNT_ATTEMPTS, b, [pruning] + rest, 0, 1);
    RunOutStays(t, burst, ACCOUNT_ATTEMPTS, c, first * WINDOW);
    var m := After(t, Times(burst, ACCOUNT_ATTEMPTS), true);
    hide After;
    hide Times;
    assert WindowOf(m.windows, a) == Window(ACCOUNT_ATTEMPTS, WINDOW) == WindowOf(m.windows, b);
    assert m.nextGC <= first * WINDOW && WINDOW <= first * WINDOW;
    PruningAttempt(m, other, first * WINDOW, a);
    PruningAttempt(m, other, first * WINDOW, b);
    assert ([pruning] + rest)[1..] == rest;
    hide Next;
    hide Charges;
  }

  lemma {:induction false} RoundsAdmitted(t: Table, ip: string, other: string, account: string, first: nat, n: nat)
    requires first > 0 && account != "" && other != ip && RoundMayBegin(t, ip, other, account, first)
    ensures Admitted(t, LateRounds(ip, other, account, first, n), "account:" + account, 0, 1) == n * ACCOUNT_ATTEMPTS
    decreases n
  {
    if n > 0 {
      LateRound(t, ip, other, account, first, LateRounds(ip, other, account, first + 1, n - 1));
      var m := After(t, Times(Attempt(ip, account, 0), ACCOUNT_ATTEMPTS), true);
      hide RoundMayBegin;
      hide Admitted;
      hide After;
      hide Next;
      hide Times;
      RoundsAdmitted(Next(m, Attempt(other, "", first * WINDOW), true).0, ip, other, account, first + 1, n - 1);
    }
  }

  /**
   For attempts that reach the table out of order there is no bound at all: any number of full bursts of one account
   that all read the clock at the same moment can be let through, in the shortest of intervals.
   */
  lemma {:induction false} LateAttemptsAreUnbounded(ip: string, other: string, account: string, n: nat)
    requires account != "" && other != ip
    ensures Admitted(EMPTY, LateRounds(ip, other, account, 1, n), "account:" + account, 0, 1) == n * ACCOUNT_ATTEMPTS
  {
    RoundsAdmitted(EMPTY, ip, other, account, 1, n);
  }
}
