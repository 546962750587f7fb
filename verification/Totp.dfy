/** `ansina.auth.totp.find_valid_step` and the replay floor `TotpStepUpVerifier` persists. */
module Totp {
  import opened Wrappers

  /** `hotp(secret, counter)` of RFC 4226, left uninterpreted. */
  type Hotp = (string, int) -> string

  const STEP_SECONDS := 30
  const WINDOW := 1

  function StepIndex(at: int): int {
    at / STEP_SECONDS
  }

  predicate Matches(hotp: Hotp, secret: string, code: string, floor: Option<int>, step: int) {
    (floor.None? || step > floor.value) && hotp(secret, step) == code
  }

  /** The earliest acceptable step in `[low, high]`. */
  function FirstMatch(hotp: Hotp, secret: string, code: string, floor: Option<int>, low: int,
      high: int): (r: Option<int>)
    ensures r.Some? ==> low <= r.value <= high && Matches(hotp, secret, code, floor, r.value)
    ensures r.Some? ==> forall k :: low <= k < r.value ==> !Matches(hotp, secret, code, floor, k)
    ensures r.None? ==> forall k :: low <= k <= high ==> !Matches(hotp, secret, code, floor, k)
    decreases high - low + 1
  {
    if low > high then None
    else if Matches(hotp, secret, code, floor, low) then Some(low)
    else FirstMatch(hotp, secret, code, floor, low + 1, high)
  }

  method FindValidStep(hotp: Hotp, secret: string, code: string, at: int, notBefore: Option<int>)
      returns (r: Option<int>)
    ensures r == FirstMatch(hotp, secret, code, notBefore, StepIndex(at) - WINDOW, StepIndex(at) + WINDOW)
  {
    var current := StepIndex(at);
    for delta := -WINDOW to WINDOW + 1
      invariant FirstMatch(hotp, secret, code, notBefore, current - WINDOW, current + WINDOW)
             == FirstMatch(hotp, secret, code, notBefore, current + delta, current + WINDOW)
    {
      var candidate := current + delta;
      if notBefore.Some? && candidate <= notBefore.value {
        continue;
      }
      if hotp(secret, candidate) == code {
        return Some(candidate);
      }
    }
    return None;
  }

  /** A user's `totp` row: the decrypted secret and the last accepted step. */
  datatype Credential = Credential(secret: string, lastStep: Option<int>)

  datatype Event = Enroll(user: string, secret: string) | Remove(user: string) | Verify(user: string, code: string,
      at: int)

  type Credentials = map<string, Credential>

  /** The step a verification matches, if any. */
  function Accepted(t: Credentials, e: Event, hotp: Hotp): Option<int>
    requires e.Verify?
  {
    if e.user !in t || e.code == "" then None
    else FirstMatch(hotp, t[e.user].secret, e.code, t[e.user].lastStep, StepIndex(e.at) - WINDOW,
        StepIndex(e.at) + WINDOW)
  }

  function Apply(t: Credentials, e: Event, hotp: Hotp): Credentials {
    match e
    case Enroll(user, secret) => if user in t then t else t[user := Credential(secret, None)]
    case Remove(user) => t - {user}
    case Verify(user, _, _) =>
      var step := Accepted(t, e, hotp);
      if step.None? then t else t[user := t[user].(lastStep := step)]
  }

  class TotpStepUpVerifier {
    const hotp: Hotp
    var credentials: Credentials

    constructor (hotp: Hotp)
      ensures this.hotp == hotp && credentials == map[]
    {
      this.hotp, credentials := hotp, map[];
    }

    method Verify(user: string, code: string, at: int) returns (ok: bool)
      modifies this`credentials
      ensures ok == Accepted(old(credentials), Event.Verify(user, code, at), hotp).Some?
      ensures credentials == Apply(old(credentials), Event.Verify(user, code, at), hotp)
    {
      if code == "" || user !in credentials {
        return false;
      }
      var matched := FindValidStep(hotp, credentials[user].secret, code, at, credentials[user].lastStep);
      if matched.None? {
        return false;
      }
      credentials := credentials[user := credentials[user].(lastStep := matched)];
      return true;
    }
  }

  /** The steps `user` has accepted so far with the secret now enrolled, oldest first. */
  function AcceptedSteps(t: Credentials, es: seq<Event>, user: string, hotp: Hotp): seq<int>
    decreases |es|
  {
    if es == [] then []
    else
      var rest := AcceptedSteps(Apply(t, es[0], hotp), es[1..], user, hotp);
      if es[0].Verify? && es[0].user == user && Accepted(t, es[0], hotp).Some?
      then [Accepted(t, es[0], hotp).value] + rest
      else rest
  }

  predicate IncreasingAbove(steps: seq<int>, floor: Option<int>) {
    && (forall i, j :: 0 <= i < j < |steps| ==> steps[i] < steps[j])
    && (floor.Some? ==> forall i :: 0 <= i < |steps| ==> floor.value < steps[i])
  }

  lemma PrependStep(step: int, rest: seq<int>, floor: Option<int>)
    requires IncreasingAbove(rest, Some(step)) && (floor.Some? ==> floor.value < step)
    ensures IncreasingAbove([step] + rest, floor)
  {
  }

  /**
   * While a user's enrolment stands, the accepted steps strictly increase from the
   * stored floor: no step is ever accepted twice, at any clock reading.
   */
  lemma {:induction false} AcceptedStepsIncrease(t: Credentials, es: seq<Event>, user: string, hotp: Hotp)
    requires user in t
    requires forall i :: 0 <= i < |es| ==> es[i] != Remove(user)
    ensures IncreasingAbove(AcceptedSteps(t, es, user, hotp), t[user].lastStep)
    decreases |es|
  {
    if es != [] {
      var after := Apply(t, es[0], hotp);
      AcceptedStepsIncrease(after, es[1..], user, hotp);
      if es[0].Verify? && es[0].user == user && Accepted(t, es[0], hotp).Some? {
        PrependStep(Accepted(t, es[0], hotp).value, AcceptedSteps(after, es[1..], user, hotp), t[user].lastStep);
      }
    }
  }

  /** The code a user's authenticator shows at `step`, still usable at clock reading `at`. */
  predicate Usable(c: Credential, code: string, at: int, step: int, hotp: Hotp) {
    -1 <= step - at / 30 <= 1 && hotp(c.secret, step) == code && (c.lastStep.Some? ==> c.lastStep.value < step)
  }

  /**
   * A code is accepted exactly if it belongs to a step within one of the clock's and after the last
   * accepted one. The earliest such step is stored, and a refusal stores nothing.
   */
  lemma VerifyAcceptsExactly(t: Credentials, user: string, code: string, at: int, hotp: Hotp)
    ensures var e := Verify(user, code, at);
            (Accepted(t, e, hotp).Some? <==>
               user in t && code != "" && exists step :: Usable(t[user], code, at, step, hotp))
    ensures var e := Verify(user, code, at);
            Accepted(t, e, hotp).Some? ==>
               var step := Accepted(t, e, hotp).value;
               && Apply(t, e, hotp) == t[user := Credential(t[user].secret, Some(step))]
               && Usable(t[user], code, at, step, hotp)
               && forall other :: Usable(t[user], code, at, other, hotp) ==> step <= other
    ensures var e := Verify(user, code, at);
            Accepted(t, e, hotp).None? ==> Apply(t, e, hotp) == t
  {
    if user in t {
      forall step ensures Usable(t[user], code, at, step, hotp) <==>
        StepIndex(at) - WINDOW <= step <= StepIndex(at) + WINDOW
        && Matches(hotp, t[user].secret, code, t[user].lastStep, step)
      {
      }
    }
  }

  /** After an enrolment the code of the moment is good, one step early or late too, and never a second time. */
  lemma FreshCodeWorksOnce(t: Credentials, user: string, secret: string, at: int, drift: int, hotp: Hotp)
    requires user !in t && -1 <= drift <= 1 && hotp(secret, at / 30 + drift) != ""
    requires forall i, j :: at / 30 - 1 <= i < j <= at / 30 + 1 ==> hotp(secret, i) != hotp(secret, j)
    ensures var enrolled := Apply(t, Enroll(user, secret), hotp);
            var e := Verify(user, hotp(secret, at / 30 + drift), at);
            && Accepted(enrolled, e, hotp) == Some(at / 30 + drift)
            && Accepted(Apply(enrolled, e, hotp), e, hotp).None?
  {
    var enrolled := Apply(t, Enroll(user, secret), hotp);
    var code := hotp(secret, at / 30 + drift);
    assert Usable(enrolled[user], code, at, at / 30 + drift, hotp);
    VerifyAcceptsExactly(enrolled, user, code, at, hotp);
    VerifyAcceptsExactly(Apply(enrolled, Verify(user, code, at), hotp), user, code, at, hotp);
  }

  /** Enrolling twice keeps the first secret and its floor; removing ends the enrolment; no other user is touched. */
  lemma EnrolmentChanges(t: Credentials, user: string, secret: string, hotp: Hotp)
    ensures user in t ==> Apply(t, Enroll(user, secret), hotp) == t
    ensures user !in t ==> Apply(t, Enroll(user, secret), hotp) == t[user := Credential(secret, None)]
    ensures user !in Apply(t, Remove(user), hotp)
    ensures forall other :: other in t && other != user ==>
              other in Apply(t, Remove(user), hotp) && Apply(t, Remove(user), hotp)[other] == t[other]
    ensures Apply(Apply(t, Remove(user), hotp), Enroll(user, secret), hotp) == t[user := Credential(secret, None)]
  {
    assert (t - {user})[user := Credential(secret, None)] == t[user := Credential(secret, None)];
  }
}
