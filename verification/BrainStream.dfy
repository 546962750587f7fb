/** `ansina.brain.provider` and `ansina.brain.retry`: the bounded, never-throwing stream. */
module BrainStream {
  import opened Wrappers

  datatype ErrorClass = Timeout | RateLimit | Transport | ProviderClient | ProviderServer | Internal

  const RETRYABLE: set<ErrorClass> := {Timeout, RateLimit, Transport, ProviderServer}

  datatype Usage = Usage(promptTokens: nat, completionTokens: nat, totalTokens: nat, authoritative: bool)

  datatype Event =
    | TextDelta(text: string)
    | Done(usage: Option<Usage>)
    | ErrorEvent(errorClass: ErrorClass, message: string, retryable: bool, usage: Option<Usage>)

  /** How one call of the adapter's hook ends; an error comes with the hook's partial usage. */
  datatype Ending =
    | Completes(usage: Option<Usage>)
    | Raises(errorClass: ErrorClass, message: string, partial: Option<Usage>)
    | Cancelled

  /** One call of the hook: the texts it yields, then its end. */
  datatype Attempt = Attempt(texts: seq<string>, ending: Ending)

  /** The hook's behaviour at each attempt, counted from 1. */
  type Hook = nat -> Attempt

  datatype End = Finished | WasCancelled | Threw

  /** The largest exponent whose power of 2.0 is a finite double; the next one raises. */
  const MAX_EXPONENT := 1023

  function Pow2(n: nat): (p: real)
    ensures p >= 1.0
  {
    if n == 0 then 1.0 else 2.0 * Pow2(n - 1)
  }

  function Min(a: real, b: real): real {
    if a <= b then a else b
  }

  function BackoffSeconds(attempt: nat, initial: real, maximum: real): real
    requires attempt >= 1
  {
    Min(maximum, initial * Pow2(attempt - 1))
  }

  /** The first `r` delays together. */
  function TotalDelay(r: nat, initial: real, maximum: real): real {
    if r == 0 then 0.0 else TotalDelay(r - 1, initial, maximum) + BackoffSeconds(r, initial, maximum)
  }

  lemma Products(i: real, p: real)
    requires i > 0.0 && p >= 1.0
    ensures i * (p - 1.0) == i * p - i && i * (2.0 * p - 1.0) == i * p + i * p - i
        && i * (2.0 * p) == i * p + i * p && i * p > 0.0
  {
  }

  lemma OneMore(n: real, maximum: real)
    ensures (n + 1.0) * maximum == n * maximum + maximum
  {
  }

  lemma {:induction false} WaitBelowMaxima(r: nat, initial: real, maximum: real)
    requires initial > 0.0 && maximum > 0.0
    ensures 0.0 <= TotalDelay(r, initial, maximum) <= r as real * maximum
  {
    if r > 0 {
      WaitBelowMaxima(r - 1, initial, maximum);
      Products(initial, Pow2(r - 1));
      var n := (r - 1) as real;
      OneMore(n, maximum);
      assert r as real == n + 1.0;
    }
  }

  lemma NextDelay(r: nat, initial: real, maximum: real)
    requires r > 0
    ensures TotalDelay(r, initial, maximum) <= TotalDelay(r - 1, initial, maximum) + initial * Pow2(r - 1)
  {
  }

  /** `initial * (2**r - 1)`. */
  function PowersCeiling(r: nat, initial: real): real {
    initial * (Pow2(r) - 1.0)
  }

  lemma CeilingStep(r: nat, initial: real)
    requires r > 0
    ensures PowersCeiling(r, initial) == PowersCeiling(r - 1, initial) + initial * Pow2(r - 1)
  {
    var p := Pow2(r - 1);
    assert Pow2(r) == 2.0 * p;
    assert initial * (2.0 * p - 1.0) == initial * (p - 1.0) + initial * p;
  }

  lemma {:induction false} WaitBelowPowers(r: nat, initial: real, maximum: real)
    requires initial > 0.0
    ensures TotalDelay(r, initial, maximum) <= PowersCeiling(r, initial)
  {
    if r == 0 {
      assert Pow2(0) - 1.0 == 0.0;
    } else {
      WaitBelowPowers(r - 1, initial, maximum);
      NextDelay(r, initial, maximum);
      hide PowersCeiling, TotalDelay, Pow2;
      CeilingStep(r, initial);
    }
  }

  /** Delays never shrink, and once at the maximum they stay there. */
  lemma DelaysGrow(k: nat, initial: real, maximum: real)
    requires k >= 1 && initial > 0.0
    ensures BackoffSeconds(k, initial, maximum) <= BackoffSeconds(k + 1, initial, maximum) <= maximum
    ensures BackoffSeconds(k, initial, maximum) == maximum ==> BackoffSeconds(k + 1, initial, maximum) == maximum
  {
    Products(initial, Pow2(k - 1));
    assert Pow2(k) == 2.0 * Pow2(k - 1);
  }

  /** The first delay is the initial one and each further delay twice the one before, as far as the maximum allows. */
  lemma DelaysDouble(k: nat, initial: real, maximum: real)
    requires k >= 1 && initial > 0.0 && maximum > 0.0
    ensures BackoffSeconds(1, initial, maximum) == if initial <= maximum then initial else maximum
    ensures var delay := BackoffSeconds(k, initial, maximum);
            BackoffSeconds(k + 1, initial, maximum) == if 2.0 * delay <= maximum then 2.0 * delay else maximum
  {
    Products(initial, Pow2(k - 1));
    assert initial * Pow2(0) == initial;
    assert Pow2(k) == 2.0 * Pow2(k - 1);
  }

  /** The time slept through, all delays together. */
  function Total(slept: seq<real>): real {
    if slept == [] then 0.0 else Total(slept[..|slept| - 1]) + slept[|slept| - 1]
  }

  lemma {:induction false} TotalOfSlept(slept: seq<real>, r: nat, initial: real, maximum: real)
    requires Slept(slept, r, initial, maximum)
    ensures Total(slept) == TotalDelay(r, initial, maximum)
    decreases r
  {
    hide BackoffSeconds;
    if r > 0 {
      TotalOfSlept(slept[..r - 1], r - 1, initial, maximum);
    }
  }

  function Texts(texts: seq<string>): (events: seq<Event>)
    ensures |events| == |texts|
    ensures forall i :: 0 <= i < |texts| ==> events[i] == TextDelta(texts[i])
  {
    seq(|texts|, i requires 0 <= i < |texts| => TextDelta(texts[i]))
  }

  /** All the text the caller has seen once attempts 1 to `k` have ended. */
  function Said(hook: Hook, k: nat): seq<Event> {
    if k == 0 then [] else Said(hook, k - 1) + Texts(hook(k).texts)
  }

  /** The failure of attempt `k` is one the loop retries: no text has reached the caller, from any attempt. */
  predicate Retries(hook: Hook, maxRetries: nat, k: nat) {
    hook(k).ending.Raises? && hook(k).ending.errorClass in RETRYABLE && Said(hook, k) == [] && k <= maxRetries
  }

  /** Attempt `k` is followed by another: its delay can be computed and is slept through. */
  predicate GoesOn(hook: Hook, interrupted: nat -> bool, maxRetries: nat, k: nat) {
    k >= 1 && Retries(hook, maxRetries, k) && k - 1 <= MAX_EXPONENT && !interrupted(k)
  }

  function EndOf(hook: Hook, maxRetries: nat, k: nat): End
    requires k >= 1
  {
    if hook(k).ending.Cancelled? then WasCancelled
    else if !Retries(hook, maxRetries, k) then Finished
    else if k - 1 > MAX_EXPONENT then Threw
    else WasCancelled
  }

  /** The one terminal event of a finished stream. */
  function Terminal(ending: Ending): seq<Event> {
    match ending
    case Completes(usage) => [Done(usage)]
    case Raises(errorClass, message, partial) => [ErrorEvent(errorClass, message, errorClass in RETRYABLE, partial)]
    case Cancelled => []
  }

  predicate IsTerminal(e: Event) {
    !e.TextDelta?
  }

  /** One attempt's texts, closed by its terminal event if the stream finished. */
  function Stream(attempt: Attempt, end: End): (events: seq<Event>)
    ensures end.Finished? && !attempt.ending.Cancelled? ==>
              |events| == |attempt.texts| + 1 && forall i :: 0 <= i < |events| ==>
                  (IsTerminal(events[i]) <==> i == |events| - 1)
    ensures !end.Finished? ==> forall i :: 0 <= i < |events| ==> !IsTerminal(events[i])
  {
    Texts(attempt.texts) + if end.Finished? then Terminal(attempt.ending) else []
  }

  /** The attempts 1 to `k` all ended without a word. */
  ghost predicate Silent(hook: Hook, k: nat) {
    forall j: nat :: 1 <= j <= k ==> hook(j).texts == []
  }

  lemma {:induction false} SaidNothing(hook: Hook, k: nat)
    ensures Said(hook, k) == [] <==> Silent(hook, k)
  {
    if k > 0 {
      SaidNothing(hook, k - 1);
      assert Silent(hook, k) <==> Silent(hook, k - 1) && hook(k).texts == [];
      assert Texts(hook(k).texts) == [] <==> hook(k).texts == [];
    }
  }

  /**
   * Which attempts are followed by another: a failure on the wire or at the provider, while retries
   * are left, no text has been passed on and the caller lets the delay run out.
   */
  lemma GoesOnExactly(hook: Hook, interrupted: nat -> bool, maxRetries: nat, k: nat)
    ensures GoesOn(hook, interrupted, maxRetries, k) <==>
              && 1 <= k <= maxRetries && k <= 1024 && Silent(hook, k) && !interrupted(k)
              && hook(k).ending.Raises?
              && hook(k).ending.errorClass != ProviderClient && hook(k).ending.errorClass != Internal
  {
    SaidNothing(hook, k);
  }

  /** How the stream ends at an attempt that no other follows. */
  lemma EndExactly(hook: Hook, interrupted: nat -> bool, maxRetries: nat, k: nat)
    requires k >= 1 && !GoesOn(hook, interrupted, maxRetries, k)
    ensures var ending := hook(k).ending;
            var again := ending.Raises? && ending.errorClass != ProviderClient && ending.errorClass != Internal
                && k <= maxRetries && Silent(hook, k);
            match EndOf(hook, maxRetries, k)
            case Finished => !ending.Cancelled? && !again
            case WasCancelled => ending.Cancelled? || (again && k <= 1024 && interrupted(k))
            case Threw => again && k > 1024
  {
    SaidNothing(hook, k);
  }

  /**
   * What a finished stream looks like: the texts in order, then `done` with the usage, or the error with
   * its class, message and partial usage, marked retryable unless the request or the program was at fault.
   */
  lemma StreamExactly(attempt: Attempt, end: End)
    ensures var n := |attempt.texts|;
            && |Stream(attempt, end)| == n + (if end.Finished? && !attempt.ending.Cancelled? then 1 else 0)
            && (forall i :: 0 <= i < n ==> Stream(attempt, end)[i] == TextDelta(attempt.texts[i]))
            && (end.Finished? ==> match attempt.ending
                  case Completes(usage) => Stream(attempt, end)[n] == Done(usage)
                  case Raises(errorClass, message, partial) =>
                    Stream(attempt, end)[n] ==
                      ErrorEvent(errorClass, message, errorClass != ProviderClient && errorClass != Internal, partial)
                  case Cancelled => true)
  {
  }

  predicate Slept(slept: seq<real>, r: int, initial: real, maximum: real) {
    |slept| == r && forall i :: 0 <= i < |slept| ==> slept[i] == BackoffSeconds(i + 1, initial, maximum)
  }

  /** Whatever was retried said nothing: the caller sees the text of one attempt only. */
  lemma OnlyLastSpeaks(hook: Hook, interrupted: nat -> bool, maxRetries: nat, k: nat, end: End)
    requires k >= 1 && (k > 1 ==> GoesOn(hook, interrupted, maxRetries, k - 1))
    ensures Said(hook, k) + (if end.Finished? then Terminal(hook(k).ending) else []) == Stream(hook(k), end)
  {
    hide Terminal;
    assert Said(hook, k) == Texts(hook(k).texts);
  }

  /** The two ceilings on the time slept before attempt `k`. */
  lemma WaitIsBounded(k: nat, initial: real, maximum: real)
    requires k >= 1 && initial > 0.0 && maximum > 0.0
    ensures TotalDelay(k - 1, initial, maximum) <= (k - 1) as real * maximum
    ensures TotalDelay(k - 1, initial, maximum) <= PowersCeiling(k - 1, initial)
  {
    WaitBelowMaxima(k - 1, initial, maximum);
    WaitBelowPowers(k - 1, initial, maximum);
  }

  class BaseBrainProvider {
    const maxRetries: nat
    const initial: real
    const maximum: real

    constructor (maxRetries: nat, initial: real, maximum: real)
      ensures this.maxRetries == maxRetries && this.initial == initial && this.maximum == maximum
    {
      this.maxRetries, this.initial, this.maximum := maxRetries, initial, maximum;
    }

    /**
     * What the caller of `stream` sees. `interrupted(k)` says that the caller cancels the
     * sleep after attempt `k`.
     */
    method Run(hook: Hook, interrupted: nat -> bool)
        returns (events: seq<Event>, slept: seq<real>, attempts: nat, end: End)
      requires initial > 0.0 && maximum > 0.0
      ensures 1 <= attempts <= maxRetries + 1
      ensures forall k: nat :: 1 <= k < attempts ==> GoesOn(hook, interrupted, maxRetries, k)
      ensures !GoesOn(hook, interrupted, maxRetries, attempts) && end == EndOf(hook, maxRetries, attempts)
      ensures events == Stream(hook(attempts), end)
      ensures Slept(slept, attempts - 1, initial, maximum)
      ensures Total(slept) <= (attempts - 1) as real * maximum
      ensures Total(slept) <= PowersCeiling(attempts - 1, initial)
      ensures end.Threw? ==> maxRetries > MAX_EXPONENT + 1
    {
      hide Total, TotalDelay, PowersCeiling, Pow2, BackoffSeconds, Texts, Stream;
      attempts, events, slept := 0, [], [];
      end := Finished;
      var done, yieldedText := false, false;
      while !done
        invariant attempts <= maxRetries + 1 && (!done ==> attempts <= maxRetries && end == Finished)
        invariant forall k: nat :: 1 <= k <= attempts - (if done then 1 else 0) ==>
            GoesOn(hook, interrupted, maxRetries, k)
        invariant Slept(slept, attempts - (if done then 1 else 0), initial, maximum)
        invariant done ==> attempts >= 1 && end == EndOf(hook, maxRetries, attempts)
        invariant done ==> !GoesOn(hook, interrupted, maxRetries, attempts)
        invariant yieldedText <==> Said(hook, attempts) != []
        invariant events == Said(hook, attempts) + if done && end.Finished? then Terminal(hook(attempts).ending) else []
        decreases maxRetries + 1 - attempts, !done
      {
        attempts := attempts + 1;
        var attempt := hook(attempts);
        events, yieldedText := Relay(events, yieldedText, attempt.texts);
        if attempt.ending.Completes? {
          events, done := events + [Done(attempt.ending.usage)], true;
        } else if attempt.ending.Cancelled? {
          end, done := WasCancelled, true;
        } else {
          var retryable := attempt.ending.errorClass in RETRYABLE;
          if retryable && !yieldedText && attempts <= maxRetries {
            if attempts - 1 > MAX_EXPONENT {
              end, done := Threw, true;
            } else if interrupted(attempts) {
              end, done := WasCancelled, true;
            } else {
              slept := slept + [BackoffSeconds(attempts, initial, maximum)];
            }
          } else {
            events := events + [ErrorEvent(attempt.ending.errorClass, attempt.ending.message, retryable,
                attempt.ending.partial)];
            done := true;
          }
        }
      }
      OnlyLastSpeaks(hook, interrupted, maxRetries, attempts, end);
      WaitIsBounded(attempts, initial, maximum);
      TotalOfSlept(slept, attempts - 1, initial, maximum);
    }

    /** Passes one attempt's texts on behind what the caller has seen, and notes whether there were any. */
    method Relay(seen: seq<Event>, spoken: bool, texts: seq<string>) returns (events: seq<Event>, yieldedText: bool)
      ensures events == seen + Texts(texts) && (yieldedText <==> spoken || texts != [])
    {
      events, yieldedText := seen, spoken;
      var i := 0;
      while i < |texts|
        invariant i <= |texts| && events == seen + Texts(texts[..i]) && (yieldedText <==> spoken || i > 0)
      {
        assert texts[..i + 1] == texts[..i] + [texts[i]];
        yieldedText := true;
        events := events + [TextDelta(texts[i])];
        i := i + 1;
      }
      assert texts[..i] == texts;
    }
  }

  /** Where a run of the loop stops, from attempt `k` on. */
  function StopsAt(hook: Hook, interrupted: nat -> bool, maxRetries: nat, k: nat): (stop: nat)
    requires 1 <= k <= maxRetries + 1
    ensures k <= stop <= maxRetries + 1 && !GoesOn(hook, interrupted, maxRetries, stop)
    ensures forall j: nat :: k <= j < stop ==> GoesOn(hook, interrupted, maxRetries, j)
    decreases maxRetries + 1 - k
  {
    if GoesOn(hook, interrupted, maxRetries, k) then StopsAt(hook, interrupted, maxRetries, k + 1) else k
  }

  lemma {:induction false} SilentHook(hook: Hook, k: nat)
    requires forall j: nat :: hook(j).texts == []
    ensures Said(hook, k) == []
  {
    if k > 0 {
      SilentHook(hook, k - 1);
    }
  }

  /** Whatever the hook does, the stream raises nothing of its own. */
  ghost predicate NeverThrows(maxRetries: nat) {
    forall hook: Hook, interrupted: nat -> bool ::
      EndOf(hook, maxRetries, StopsAt(hook, interrupted, maxRetries, 1)) != Threw
  }

  /**
   * The never-throw contract holds exactly up to 1024 retries: past that, the delay's power of
   * two overflows inside the handler, and the overflow reaches the caller.
   */
  lemma NeverThrowsUpToOverflow(maxRetries: nat)
    ensures NeverThrows(maxRetries) <==> maxRetries <= MAX_EXPONENT + 1
  {
    if maxRetries > MAX_EXPONENT + 1 {
      var hook: Hook := (k: nat) => Attempt([], Raises(Timeout, "timed out", None));
      var never := (k: nat) => false;
      var stop := StopsAt(hook, never, maxRetries, 1);
      forall k: nat ensures Said(hook, k) == [] {
        SilentHook(hook, k);
      }
      assert forall k: nat :: 1 <= k <= MAX_EXPONENT + 1 ==> GoesOn(hook, never, maxRetries, k);
      assert stop >= MAX_EXPONENT + 2;
      assert !GoesOn(hook, never, maxRetries, MAX_EXPONENT + 2);
      assert stop == MAX_EXPONENT + 2;
    }
  }
}
