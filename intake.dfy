/**
 * The two-step intake wizard (src/app/testing/page.tsx): the user types a name,
 * presses Enter, types a city, presses Enter, and the pair is posted to the
 * analysis service while a waiting screen is held for at least 2.5 seconds.
 *
 * `submitToApi` suspends at its first `await`, so it is modelled as two methods:
 * `SubmitToApi`, what runs before the request is sent, and `CompleteSubmission`,
 * the continuation once the request has settled. Other events may happen in between.
 */
module Intake {
  import Wrappers
  import opened JsString

  datatype Phase = Input | Loading | Success

  /** The body of the identity request. */
  datatype Identity = Identity(name: string, location: string)

  /**
   * How the identity request settled: `fetch` rejected, or a response with its `ok`
   * flag and whether `res.json()` decoded its body.
   */
  datatype ApiResponse = NetworkError | Responded(ok: bool, bodyDecodes: bool)

  /** The shortest time, in milliseconds, the waiting screen stays up after a response. */
  const MinDurationMs: int := 2500

  /**
   * The extra wait after a response that arrived `elapsed` ms after the request:
   * the least non-negative wait that brings the total to at least `MinDurationMs`.
   */
  function ExtraWait(elapsed: int): (wait: nat)
    ensures elapsed + wait >= MinDurationMs
    ensures wait == 0 || elapsed + wait == MinDurationMs
  {
    if elapsed < MinDurationMs then MinDurationMs - elapsed else 0
  }

  /** The total time spent waiting is `max(elapsed, 2500)`: real latency past the floor is kept. */
  lemma TotalWaitIsMaxOfElapsedAndFloor(elapsed: int)
    ensures elapsed + ExtraWait(elapsed) == if elapsed >= MinDurationMs then elapsed else MinDurationMs
  {
  }

  /** The phase a settled request leads to: only an ok response with a decodable body succeeds. */
  function PhaseAfter(response: ApiResponse): (p: Phase)
    ensures p != Loading
    ensures p == Success <==> response == Responded(true, true)
  {
    match response
    case NetworkError => Input
    case Responded(ok, bodyDecodes) => if ok && bodyDecodes then Success else Input
  }

  /**
   * The guard of `handleKeyDown`: the key is Enter, the trimmed input is non-empty,
   * nothing is being submitted and the input phase is showing.
   */
  predicate AcceptsEnter(key: string, value: string, isSubmitting: bool, phase: Phase)
    ensures AcceptsEnter(key, value, isSubmitting, phase) <==>
              && key == "Enter" && !isSubmitting && phase == Input
              && exists i :: 0 <= i < |value| && !IsWhiteSpace(value[i])
  {
    key == "Enter" && Trim(value) != "" && !isSubmitting && phase == Input
  }

  class IntakeWizard {
    var value: string
    var step: int
    var name: string
    var phase: Phase
    var isSubmitting: bool

    /**
     * Steps are 1 and 2; a submission is in flight exactly while the waiting screen
     * shows; the wizard leaves the input phase only from step 2, and by then the
     * stored name is a non-empty trimmed string.
     */
    ghost predicate Valid()
      reads this
    {
      && (step == 1 || step == 2)
      && (isSubmitting <==> phase == Loading)
      && (phase != Input ==> step == 2)
      && (step == 1 ==> name == "")
      && (step == 2 ==> name != "" && Trim(name) == name)
    }

    constructor ()
      ensures Valid()
      ensures value == "" && step == 1 && name == "" && phase == Input && !isSubmitting
    {
      value := "";
      step := 1;
      name := "";
      phase := Input;
      isSubmitting := false;
    }

    /**
     * The input's `onChange`: the typed text replaces `value`. The input is rendered
     * only in the input phase, and it is disabled while a submission is in flight.
     */
    method Type(text: string)
      requires Valid() && phase == Input && !isSubmitting
      modifies this
      ensures Valid()
      ensures value == text
      ensures step == old(step) && name == old(name) && phase == old(phase) && isSubmitting == old(isSubmitting)
    {
      value := text;
    }

    /**
     * `handleKeyDown`. A rejected key changes nothing. An accepted Enter at step 1
     * stores the trimmed input as the name, clears the input and moves to step 2
     * without any request; at step 2 it clears the input and starts submitting
     * the stored name with the trimmed input as the city, which it returns.
     */
    method HandleKeyDown(key: string) returns (request: Wrappers.Option<Identity>)
      requires Valid()
      modifies this
      ensures Valid()
      ensures !AcceptsEnter(key, old(value), old(isSubmitting), old(phase)) ==>
                && request == Wrappers.None
                && value == old(value) && step == old(step) && name == old(name)
                && phase == old(phase) && isSubmitting == old(isSubmitting)
      ensures AcceptsEnter(key, old(value), old(isSubmitting), old(phase)) && old(step) == 1 ==>
                && request == Wrappers.None
                && name == Trim(old(value)) && value == "" && step == 2
                && phase == Input && !isSubmitting
      ensures AcceptsEnter(key, old(value), old(isSubmitting), old(phase)) && old(step) == 2 ==>
                && request == Wrappers.Some(Identity(old(name), Trim(old(value))))
                && value == "" && step == 2 && name == old(name)
                && phase == Loading && isSubmitting
    {
      request := Wrappers.None;
      if key != "Enter" || Trim(value) == "" || isSubmitting || phase != Input {
        return;
      }
      if step == 1 {
        name := Trim(value);
        TrimIdempotent(value);
        value := "";
        step := 2;
      } else {
        var city := Trim(value);
        value := "";
        request := SubmitToApi(name, city);
      }
    }

    /**
     * `submitToApi` up to its first `await`: mark the submission in flight, show the
     * waiting screen and send `{name, location}`.
     */
    method SubmitToApi(fullName: string, city: string) returns (request: Wrappers.Option<Identity>)
      requires Valid() && step == 2
      modifies this
      ensures Valid()
      ensures request == Wrappers.Some(Identity(fullName, city))
      ensures isSubmitting && phase == Loading
      ensures value == old(value) && step == old(step) && name == old(name)
    {
      isSubmitting := true;
      phase := Loading;
      request := Wrappers.Some(Identity(fullName, city));
    }

    /**
     * `submitToApi` after its request settled `elapsed` ms after it was sent. A
     * response is held back until 2500 ms have passed (a rejected `fetch` is not);
     * then an ok, decodable response shows the success screen and anything else
     * returns to the city prompt with the input still empty. Either way the
     * submission is no longer in flight. Returns the extra wait.
     */
    method CompleteSubmission(response: ApiResponse, elapsed: int) returns (wait: nat)
      requires Valid() && phase == Loading
      modifies this
      ensures Valid()
      ensures !isSubmitting
      ensures phase == PhaseAfter(response)
      ensures wait == if response.Responded? then ExtraWait(elapsed) else 0
      ensures value == old(value) && step == old(step) && name == old(name)
    {
      wait := 0;
      match response {
        case NetworkError =>
          phase := Input;
        case Responded(ok, bodyDecodes) =>
          wait := ExtraWait(elapsed);
          if !ok {
            phase := Input;
          } else if !bodyDecodes {
            phase := Input;
          } else {
            phase := Success;
          }
      }
      isSubmitting := false;
    }
  }

  /**
   * A whole run of the wizard: a name, then a city, then the response. Whatever
   * the response, the request carries the two trimmed inputs, the wizard ends at
   * step 2 with nothing in flight and an empty input, and it has succeeded exactly
   * when the response was ok with a decodable body.
   */
  method RunWizard(nameInput: string, cityInput: string, response: ApiResponse, elapsed: int)
    returns (request: Wrappers.Option<Identity>, finalPhase: Phase, wait: nat)
    requires Trim(nameInput) != "" && Trim(cityInput) != ""
    ensures request == Wrappers.Some(Identity(Trim(nameInput), Trim(cityInput)))
    ensures finalPhase == PhaseAfter(response)
    ensures response.Responded? ==> elapsed + wait >= MinDurationMs
  {
    var w := new IntakeWizard();
    w.Type(nameInput);
    var first := w.HandleKeyDown("Enter");
    assert first == Wrappers.None && w.step == 2;
    w.Type(cityInput);
    request := w.HandleKeyDown("Enter");
    wait := w.CompleteSubmission(response, elapsed);
    finalPhase := w.phase;
    assert w.value == "" && !w.isSubmitting;
  }

  /**
   * A city Enter whose submission does not succeed returns to the city prompt with
   * the input still empty and the stored name kept, ready for another attempt.
   */
  method FailedSubmissionReturnsToCityPrompt(w: IntakeWizard, key: string, response: ApiResponse, elapsed: int)
    returns (request: Wrappers.Option<Identity>)
    requires w.Valid() && w.step == 2 && AcceptsEnter(key, w.value, w.isSubmitting, w.phase)
    requires PhaseAfter(response) == Input
    modifies w
    ensures request == Wrappers.Some(Identity(old(w.name), Trim(old(w.value))))
    ensures w.Valid() && w.phase == Input && !w.isSubmitting
    ensures w.step == 2 && w.value == "" && w.name == old(w.name)
  {
    request := w.HandleKeyDown(key);
    var _ := w.CompleteSubmission(response, elapsed);
  }

  /** Once the success screen shows, no key press changes the wizard. */
  method SuccessIsTerminal(w: IntakeWizard, key: string) returns (request: Wrappers.Option<Identity>)
    requires w.Valid() && w.phase == Success
    modifies w
    ensures request == Wrappers.None && w.phase == Success
    ensures w.value == old(w.value) && w.step == old(w.step) && w.name == old(w.name)
  {
    request := w.HandleKeyDown(key);
  }
}
