// The cloud client's request throttle, shared by concurrent callers, and its bounded retry.
module LambdaClient {
  import opened Prelude

  // ---------------------------------------------------------------- reserved slots

  /** Each slot is at least a gap after the one before it. */
  predicate Spaced(slots: seq<int>, gap: int) {
    forall i | 0 < i < |slots| :: slots[i - 1] + gap <= slots[i]
  }

  /** The slot a caller reserves when its clock shows `now`. */
  function NextSlot(last: Option<int>, gap: int, now: int): int {
    if last.None? then now else Max(now, last.value + gap)
  }

  function CountIn(times: seq<int>, lo: int, hi: int): nat {
    Sum((t: int) => if lo <= t <= hi then 1 else 0, times)
  }

  lemma {:induction false} CountSnoc(times: seq<int>, t: int, lo: int, hi: int)
    ensures CountIn(times + [t], lo, hi) == CountIn(times, lo, hi) + if lo <= t <= hi then 1 else 0
  {
    if times == [] {
      assert [] + [t] == [t] && [t][1..] == [];
    } else {
      assert (times + [t])[1..] == times[1..] + [t];
      CountSnoc(times[1..], t, lo, hi);
    }
  }

  lemma {:induction false} CountShift(times: seq<int>, lo: int, hi: int, last: int)
    requires (forall i | 0 <= i < |times| :: times[i] <= last) && last <= hi
    ensures CountIn(times, lo, hi) == CountIn(times, lo, last)
    ensures last < lo ==> CountIn(times, lo, hi) == 0
  {
    if times != [] {
      CountShift(times[1..], lo, hi, last);
    }
  }

  lemma {:induction false} Apart(slots: seq<int>, gap: int, i: nat, j: nat)
    requires gap > 0 && Spaced(slots, gap) && i < j < |slots|
    ensures slots[i] + gap <= slots[j]
    decreases j - i
  {
    if i + 1 < j {
      Apart(slots, gap, i + 1, j);
    }
  }

  lemma {:induction false} SlotsFit(slots: seq<int>, gap: int, lo: int, hi: int)
    requires gap > 0 && Spaced(slots, gap)
    ensures var n := CountIn(slots, lo, hi); n > 0 ==> (n - 1) * gap <= hi - lo
    decreases |slots|
  {
    if slots != [] {
      var last := |slots| - 1;
      var x, before := slots[last], slots[..last];
      assert slots == before + [x];
      CountSnoc(before, x, lo, hi);
      forall i | 0 <= i < last
        ensures before[i] <= x - gap
      {
        Apart(slots, gap, i, last);
      }
      if x <= hi {
        CountShift(before, lo, hi, x - gap);
        SlotsFit(before, gap, lo, x - gap);
        OneMore(CountIn(before, lo, hi), gap);
      } else {
        SlotsFit(before, gap, lo, hi);
      }
    }
  }

  lemma OneMore(n: int, gap: int)
    ensures n * gap == (n - 1) * gap + gap
  {
  }

  lemma GapsFit(n: int, gap: int, w: int)
    requires gap > 0 && n * gap <= w
    ensures n <= w / gap
  {
    var fit := w / gap;
    assert gap * fit + w % gap == w;
    if fit + 1 <= n {
      Scale(fit + 1, n, gap);
      OneMore(fit + 1, gap);
    }
  }

  /** A window of length `w` holds at most one slot more than gaps fit into it. */
  lemma WindowBound(slots: seq<int>, gap: int, lo: int, w: nat)
    requires gap > 0 && Spaced(slots, gap)
    ensures CountIn(slots, lo, lo + w) <= w / gap + 1
  {
    SlotsFit(slots, gap, lo, lo + w);
    var n := CountIn(slots, lo, lo + w);
    if n > 0 {
      GapsFit(n - 1, gap, w);
    }
  }

  // ---------------------------------------------------------------- requests sent

  /** A request goes out at its slot or, when its caller wakes late, after it; a cancelled one does not go out. */
  predicate SentAt(slots: seq<int>, sends: seq<Option<int>>, late: nat) {
    |sends| == |slots| && forall i | 0 <= i < |sends| && sends[i].Some? :: slots[i] <= sends[i].value <= slots[i] + late
  }

  function SendsIn(sends: seq<Option<int>>, lo: int, hi: int): nat {
    Sum((t: Option<int>) => if t.Some? && lo <= t.value <= hi then 1 else 0, sends)
  }

  lemma {:induction false} SendsAreSlots(slots: seq<int>, sends: seq<Option<int>>, late: nat, lo: int, hi: int)
    requires SentAt(slots, sends, late)
    ensures SendsIn(sends, lo, hi) <= CountIn(slots, lo - late, hi)
  {
    if sends != [] {
      SendsAreSlots(slots[1..], sends[1..], late, lo, hi);
    }
  }

  /** A window of requests is as full as a window of slots that is longer by the lateness. */
  lemma SendWindowBound(slots: seq<int>, sends: seq<Option<int>>, gap: int, late: nat, lo: int, w: nat)
    requires gap > 0 && Spaced(slots, gap) && SentAt(slots, sends, late)
    ensures SendsIn(sends, lo, lo + w) <= (w + late) / gap + 1
  {
    SendsAreSlots(slots, sends, late, lo, lo + w);
    WindowBound(slots, gap, lo - late, w + late);
  }

  /** Any two requests that went out are at least `distance` apart. */
  predicate SendsApart(sends: seq<Option<int>>, distance: int) {
    forall i, j | 0 <= i < j < |sends| && sends[i].Some? && sends[j].Some? ::
      sends[i].value + distance <= sends[j].value
  }

  /** The distance any two requests keep in every run: the gap less the lateness, and no more. */
  lemma DistanceKept(gap: int, late: nat, distance: int)
    requires gap > 0
    ensures (forall slots, sends | Spaced(slots, gap) && SentAt(slots, sends, late) :: SendsApart(sends, distance))
      <==> distance <= gap - late
  {
    if gap - late < distance {
      var slots, sends := [0, gap], [Some(late as int), Some(gap)];
      assert SentAt(slots, sends, late) && Spaced(slots, gap);
      assert sends[0].value + distance > sends[1].value && !SendsApart(sends, distance);
    } else {
      forall slots, sends: seq<Option<int>>, i: nat, j: nat
        | Spaced(slots, gap) && SentAt(slots, sends, late) && i < j < |sends| && sends[i].Some? && sends[j].Some?
        ensures sends[i].value + distance <= sends[j].value
      {
        Apart(slots, gap, i, j);
      }
    }
  }

  /** Requests keep the whole gap in every run exactly when no caller wakes late. */
  lemma GapKeptIffPunctual(gap: int, late: nat)
    requires gap > 0
    ensures (forall slots, sends | Spaced(slots, gap) && SentAt(slots, sends, late) :: SendsApart(sends, gap))
      <==> late == 0
  {
    DistanceKept(gap, late, gap);
  }

  // ---------------------------------------------------------------- retry

  /** What the provider answers; a rate limit or an error of its own asks to try again, perhaps not before a delay. */
  datatype Answer = Fine | Busy(retryAfter: int) | Refused

  datatype Result = Done | Failed(answer: Answer) | Cancelled | Panicked

  /** A request: the time reserved for it and which reservation that is, when it went out, and the wait after it. */
  datatype Request = Request(slot: int, index: nat, at: int, wait: int)

  function Power2(n: nat): nat { if n == 0 then 1 else 2 * Power2(n - 1) }

  const WORD := 0x1_0000_0000_0000_0000

  /** A signed integer of 64 bits. */
  predicate InWord(x: int) { -WORD / 2 <= x < WORD / 2 }

  /** Cut to 64 bits. */
  function Wrapped(x: int): (r: int)
    ensures InWord(r) && (InWord(x) ==> r == x)
  {
    var low := x % WORD;
    if low < WORD / 2 then low else low - WORD
  }

  function Shifted(x: int, n: nat): int { Wrapped(x * Power2(n)) }

  lemma {:induction false} DoubledLess(x: nat, m: nat, n: nat)
    requires m <= n
    ensures 0 <= x * Power2(m) <= x * Power2(n)
    decreases n
  {
    assert Power2(m) > 0 by {
      PowerPositive(m);
    }
    if m < n {
      DoubledLess(x, m, n - 1);
      assert x * Power2(n) == x * Power2(n - 1) * 2;
    }
  }

  lemma {:induction false} PowerPositive(n: nat)
    ensures Power2(n) > 0
  {
    if n > 0 {
      PowerPositive(n - 1);
    }
  }

  /** What has not left the word has not left it before. */
  lemma {:induction false} InWordBefore(x: int, m: nat, n: nat)
    requires m <= n && InWord(x * Power2(n))
    ensures InWord(x * Power2(m))
    decreases n
  {
    if m < n {
      assert x * Power2(n) == x * Power2(n - 1) * 2;
      InWordBefore(x, m, n - 1);
    }
  }

  /** All the shifts are right exactly when the last one is. */
  lemma ShiftsFit(base: int, retries: nat)
    ensures (forall attempt: nat | attempt < retries :: Shifted(base, attempt) == base * Power2(attempt))
      <==> retries == 0 || InWord(base * Power2(retries - 1))
  {
    forall attempt: nat | attempt < retries && InWord(base * Power2(retries - 1))
      ensures InWord(base * Power2(attempt))
    {
      InWordBefore(base, attempt, retries - 1);
    }
    if retries > 0 && Shifted(base, retries - 1) == base * Power2(retries - 1) {
      assert InWord(base * Power2(retries - 1));
    }
  }

  /** The documented delay: exponential, capped. */
  function Delay(base: int, cap: int, attempt: nat): int { Min(base * Power2(attempt), cap) }

  /** What the code computes for it. */
  function Computed(base: int, cap: int, attempt: nat): int { Min(Shifted(base, attempt), cap) }

  /** Every delay is the documented one. */
  ghost predicate AllDocumented(base: int, cap: int, retries: nat) {
    forall attempt: nat | attempt < retries :: Computed(base, cap, attempt) == Delay(base, cap, attempt)
  }

  /** The first product outside the word turns its sign. */
  lemma {:induction false} FirstOverflow(base: int, cap: int, n: nat) returns (attempt: nat)
    requires InWord(base) && 0 <= cap && InWord(cap) && !InWord(base * Power2(n))
    ensures attempt <= n && Computed(base, cap, attempt) != Delay(base, cap, attempt)
  {
    assert n > 0 by {
      assert Power2(0) == 1;
    }
    var before, product := base * Power2(n - 1), base * Power2(n);
    assert product == before * 2;
    if InWord(before) {
      attempt := n;
      assert Shifted(base, n) == if product < 0 then product + WORD else product - WORD;
    } else {
      attempt := FirstOverflow(base, cap, n - 1);
    }
  }

  /** All delays are the documented ones exactly when the last product is in the word. */
  lemma DelaysFit(base: int, cap: int, retries: nat)
    requires InWord(base) && 0 <= cap && InWord(cap)
    ensures AllDocumented(base, cap, retries) <==> retries == 0 || InWord(base * Power2(retries - 1))
  {
    if retries > 0 {
      if InWord(base * Power2(retries - 1)) {
        ShiftsFit(base, retries);
      } else {
        var attempt := FirstOverflow(base, cap, retries - 1);
      }
    }
  }

  /** The last delay alone does not tell: after one that is wrong they can be right again. */
  lemma RightAgain()
    ensures var base, cap := 0x4000_0000_0000_0001, 1;
      && Computed(base, cap, 0) == Delay(base, cap, 0) == 1
      && Computed(base, cap, 1) < 0 < Delay(base, cap, 1)
      && Computed(base, cap, 2) == Delay(base, cap, 2) == 1
  {
    assert Power2(0) == 1 && Power2(1) == 2 && Power2(2) == 4;
    assert 0x4000_0000_0000_0001 * 4 % WORD == 4;
  }

  /** Division by two towards zero. */
  function Half(x: int): int { if x < 0 then -(-x / 2) else x / 2 }

  /** The capped delay, up to half of it again, and never less than what the provider asked for. */
  predicate IsBackoff(delay: int, retryAfter: int, wait: int) {
    Max(delay, retryAfter) <= wait <= Max(delay + Half(delay), retryAfter)
  }

  /** No delay when the draw panics, which it does for a range that is not positive. */
  method BackoffDelay(base: int, cap: int, attempt: nat, retryAfter: int) returns (wait: Option<int>)
    ensures var d := Computed(base, cap, attempt);
      && (wait.None? <==> d < -1)
      && (wait.Some? && InWord(d + Half(d)) ==> IsBackoff(d, retryAfter, wait.value))
  {
    var d := Min(Shifted(base, attempt), cap);
    if Half(d) + 1 <= 0 {
      return None;
    }
    var jitter :| 0 <= jitter < Half(d) + 1;
    d := Wrapped(d + jitter);
    return Some(Max(d, retryAfter));
  }

  /** How often and how long to wait. */
  datatype Policy = Policy(retries: int, base: int, cap: int) {
    /** All delays are the documented ones, with room for the jitter. */
    predicate Fits() {
      0 <= base && 0 <= cap && cap + cap / 2 < WORD / 2 && (retries > 0 ==> base * Power2(retries - 1) < WORD / 2)
    }

    /** The wait after an attempt that is tried again. */
    predicate Waits(attempt: nat, answer: Answer, wait: int) {
      answer.Busy? && (Fits() ==> IsBackoff(Delay(base, cap, attempt), answer.retryAfter, wait))
    }
  }

  lemma PolicyFits(p: Policy, attempt: nat)
    requires p.Fits() && attempt < p.retries
    ensures Computed(p.base, p.cap, attempt) == Delay(p.base, p.cap, attempt)
    ensures 0 <= Delay(p.base, p.cap, attempt) <= p.cap
  {
    DoubledLess(p.base, attempt, p.retries - 1);
    ShiftsFit(p.base, p.retries);
  }

  const DEFAULT := Policy(5, 1_000_000_000, 8_000_000_000)

  lemma DefaultFits()
    ensures DEFAULT.Fits()
  {
    assert Power2(1) == 2 && Power2(2) == 4 && Power2(3) == 8 && Power2(4) == 16;
  }

  /** What one call of `Do` may have sent, given the answers it got. */
  ghost predicate IsAttempts(p: Policy, sent: seq<Request>, answers: nat -> Answer) {
    && |sent| <= Max(p.retries, 0) + 1
    && (forall i | 0 <= i < |sent| :: sent[i].slot <= sent[i].at)
    && (forall i | 0 <= i < |sent| - 1 ::
      p.Waits(i, answers(i), sent[i].wait) && sent[i].at + Max(sent[i].wait, 0) <= sent[i + 1].at)
  }

  /** The last answer was busy and its wait is over by `clock`. */
  ghost predicate Rested(p: Policy, sent: seq<Request>, answers: nat -> Answer, clock: int) {
    sent != [] ==>
      var i := |sent| - 1;
      p.Waits(i, answers(i), sent[i].wait) && sent[i].at + Max(sent[i].wait, 0) <= clock
  }

  predicate Reserved(sent: seq<Request>, slots: seq<int>) {
    forall i | 0 <= i < |sent| :: sent[i].index < |slots| && slots[sent[i].index] == sent[i].slot
  }

  lemma OneMoreAttempt(p: Policy, sent: seq<Request>, answers: nat -> Answer, clock: int, r: Request)
    requires IsAttempts(p, sent, answers) && |sent| <= Max(p.retries, 0) && Rested(p, sent, answers, clock)
    requires clock <= r.at && r.slot <= r.at
    ensures IsAttempts(p, sent + [r], answers)
    ensures p.Waits(|sent|, answers(|sent|), r.wait) ==> Rested(p, sent + [r], answers, r.at + Max(r.wait, 0))
  {
    var more := sent + [r];
    forall i | 0 <= i < |more| - 1
      ensures p.Waits(i, answers(i), more[i].wait) && more[i].at + Max(more[i].wait, 0) <= more[i + 1].at
    {
      assert more[i] == sent[i];
      if i < |sent| - 1 {
        assert more[i + 1] == sent[i + 1];
      }
    }
  }

  lemma OneMoreReserved(sent: seq<Request>, before: seq<int>, slots: seq<int>, r: Request)
    requires Reserved(sent, before) && before <= slots && r.index < |slots| && slots[r.index] == r.slot
    ensures Reserved(sent + [r], slots)
  {
  }

  class Lambda {
    const minGap: int
    const policy: Policy
    var lastReq: Option<int>
    /** Every slot reserved so far, by any caller. */
    ghost var slots: seq<int>

    ghost predicate Valid()
      reads this
    {
      && (minGap > 0 ==> Spaced(slots, minGap))
      && lastReq == (if slots == [] then None else Some(slots[|slots| - 1]))
      && (minGap <= 0 ==> slots == [])
    }

    constructor (minGap: int, policy: Policy)
      ensures Valid() && slots == [] && this.minGap == minGap && this.policy == policy
    {
      this.minGap := minGap;
      this.policy := policy;
      lastReq := None;
      slots := [];
    }

    /** The critical section: works out this request's wait and reserves its slot. */
    method Reserve(now: int) returns (wait: int)
      requires Valid() && minGap > 0
      modifies this
      ensures Valid() && wait >= 0
      ensures slots == old(slots) + [NextSlot(old(lastReq), minGap, now)] && now + wait == slots[|slots| - 1]
    {
      wait := if lastReq.None? then 0 else Max(minGap - (now - lastReq.value), 0);
      lastReq := Some(now + wait);
      slots := slots + [now + wait];
    }

    /** Other callers reserving slots meanwhile, with any clock readings. */
    method Others()
      requires Valid()
      modifies this
      ensures Valid() && old(slots) <= slots
    {
      if minGap > 0 {
        var n: nat :| true;
        for i := 0 to n
          invariant Valid() && old(slots) <= slots
        {
          var now: int :| true;
          var _ := Reserve(now);
        }
      }
    }

    /** Waits for the slot; `go` is false when the caller gave up waiting. */
    method Throttle(clock: int) returns (go: bool, slot: int, ghost index: nat, awake: int)
      requires Valid()
      modifies this
      ensures Valid() && old(slots) <= slots
      ensures clock <= awake && (go ==> slot <= awake)
      ensures minGap > 0 ==> |old(slots)| <= index < |slots| && slots[index] == slot
    {
      var now :| clock <= now;
      if minGap <= 0 {
        return true, now, 0, now;
      }
      Others();
      var wait := Reserve(now);
      slot := now + wait;
      index := |slots| - 1;
      if wait <= 0 {
        return true, slot, index, now;
      }
      var cancelled: bool :| true;
      if cancelled {
        return false, slot, index, now;
      }
      var woken :| now + wait <= woken;
      Others();
      return true, slot, index, woken;
    }

    /** One round: the slot, the request, and the wait before the next if there is to be one. */
    method Round(clock: int, attempt: nat, answer: Answer)
      returns (go: bool, at: int, wait: Option<int>, ghost r: Request)
      requires Valid() && (attempt == 0 || attempt <= policy.retries)
      modifies this
      ensures Valid() && old(slots) <= slots
      ensures go ==> clock <= at && r.at == at && r.slot <= at && r.wait == if wait.Some? then wait.value else 0
      ensures go && minGap > 0 ==> r.index < |slots| && slots[r.index] == r.slot
      ensures answer.Busy? && attempt < policy.retries && wait.Some? ==> policy.Waits(attempt, answer, wait.value)
      ensures wait.None? ==> !policy.Fits()
    {
      var slot;
      ghost var index;
      go, slot, index, at := Throttle(clock);
      wait := Some(0);
      if answer.Busy? && attempt < policy.retries {
        wait := BackoffDelay(policy.base, policy.cap, attempt, answer.retryAfter);
        if policy.Fits() {
          PolicyFits(policy, attempt);
        }
      }
      r := Request(slot, index, at, if wait.Some? then wait.value else 0);
    }

    /** The requests sent so far, all from reserved slots, and the last one's wait over by `clock`. */
    ghost predicate Sending(sent: seq<Request>, answers: nat -> Answer, clock: int)
      reads this
    {
      && IsAttempts(policy, sent, answers)
      && Rested(policy, sent, answers, clock)
      && (minGap > 0 ==> Reserved(sent, slots))
    }

    /** Sends, and sends again while the provider is busy and attempts are left. */
    method Do(start: int, answers: nat -> Answer) returns (result: Result, ghost sent: seq<Request>)
      requires Valid()
      modifies this
      ensures Valid() && old(slots) <= slots
      ensures IsAttempts(policy, sent, answers) && (minGap > 0 ==> Reserved(sent, slots))
      ensures result.Done? ==> sent != [] && answers(|sent| - 1).Fine?
      ensures result.Failed? ==> sent != [] && result.answer == answers(|sent| - 1)
      ensures result.Failed? && !result.answer.Refused? ==> result.answer.Busy? && |sent| == Max(policy.retries, 0) + 1
      ensures result.Panicked? ==> !policy.Fits()
    {
      sent := [];
      var clock, attempt := start, 0;
      while true
        invariant Valid() && old(slots) <= slots
        invariant 0 <= attempt <= Max(policy.retries, 0) && |sent| == attempt && Sending(sent, answers, clock)
        decreases policy.retries - attempt
      {
        var answer := answers(attempt);
        var go, at, wait;
        ghost var r;
        go, at, wait, r := Round(clock, attempt, answer);
        if !go {
          return Cancelled, sent;
        }
        OneMoreAttempt(policy, sent, answers, clock, r);
        if minGap > 0 {
          OneMoreReserved(sent, slots, slots, r);
        }
        sent := sent + [r];
        if !answer.Busy? || attempt >= policy.retries {
          return if answer.Fine? then Done else Failed(answer), sent;
        }
        if wait.None? {
          return Panicked, sent;
        }
        var cancelled: bool :| true;
        if cancelled {
          return Cancelled, sent;
        }
        clock :| at + Max(wait.value, 0) <= clock;
        attempt := attempt + 1;
      }
    }
  }
}
