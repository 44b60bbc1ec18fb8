/**
 * The boot sequence: a timeout and a one-shot key listener that both
 * swap the boot screen for the main interface. Element presence is an
 * input; a missing element makes the callback throw a `TypeError` part
 * way through, which is modelled as the outcome `Crashed` with the state
 * as it stood when it threw.
 */
module Boot {
  /** `complete` is `bootComplete`; `keyListening` is whether the one-shot key listener is still registered. */
  datatype BootState = BootState(complete: bool, keyListening: bool)

  /** What a boot callback did to the views: nothing, threw, or swapped them. */
  datatype Outcome = Skipped | Crashed | Swapped

  const Initial: BootState := BootState(false, true)

  /**
   * The timeout callback. It does not look at `complete`: with both
   * elements present it swaps the views (and plays the boot sound)
   * every time it runs.
   */
  function OnTimeout(s: BootState, bootScreen: bool, bios: bool): (r: (BootState, Outcome))
    ensures r.1 == Swapped <==> bootScreen && bios
    ensures r.1 == Skipped <==> !bootScreen
    ensures r.0 == if r.1 == Swapped then s.(complete := true) else s
  {
    if !bootScreen then (s, Skipped)
    else if !bios then (s, Crashed)
    else (s.(complete := true), Swapped)
  }

  /**
   * The key listener, registered with `once: true`: the first key press
   * unregisters it; it swaps the views only while boot is not complete.
   * It never plays the boot sound.
   */
  function OnKeyDown(s: BootState, bootScreen: bool, bios: bool): (r: (BootState, Outcome))
    ensures !r.0.keyListening
    ensures r.1 == Swapped <==> s.keyListening && !s.complete && bootScreen && bios
    ensures r.1 == Crashed <==> s.keyListening && !s.complete && !(bootScreen && bios)
    ensures r.0.complete == (s.complete || r.1 == Swapped)
  {
    if !s.keyListening || s.complete then (s.(keyListening := false), Skipped)
    else if !bootScreen || !bios then (s.(keyListening := false), Crashed)
    else (BootState(true, false), Swapped)
  }

  datatype Event = Timeout(bootScreen: bool, bios: bool) | KeyDown(bootScreen: bool, bios: bool)

  function Step(s: BootState, e: Event): BootState {
    match e
    case Timeout(b, i) => OnTimeout(s, b, i).0
    case KeyDown(b, i) => OnKeyDown(s, b, i).0
  }

  /** The state after a sequence of callbacks, in order. */
  function Run(s: BootState, events: seq<Event>): BootState
    decreases |events|
  {
    if events == [] then s else Run(Step(s, events[0]), events[1..])
  }

  /** `bootComplete` never goes back to false, whatever callbacks run. */
  lemma {:induction false} RunMonotone(s: BootState, events: seq<Event>)
    requires s.complete
    ensures Run(s, events).complete
    decreases |events|
  {
    if events != [] {
      RunMonotone(Step(s, events[0]), events[1..]);
    }
  }

  /** Once a key has been pressed, no later key press can swap the views. */
  lemma {:induction false} KeyListenerGone(s: BootState, events: seq<Event>, bootScreen: bool, bios: bool)
    requires !s.keyListening
    ensures !Run(s, events).keyListening
    ensures OnKeyDown(Run(s, events), bootScreen, bios).1 == Skipped
    decreases |events|
  {
    if events != [] {
      KeyListenerGone(Step(s, events[0]), events[1..], bootScreen, bios);
    }
  }

  /**
   * A key press that skips the boot does not stop the timeout: it swaps
   * the views a second time and plays the boot sound, which the key press
   * never plays.
   */
  lemma TimeoutAfterSkip()
    ensures OnKeyDown(Initial, true, true).1 == Swapped
    ensures OnTimeout(OnKeyDown(Initial, true, true).0, true, true).1 == Swapped
  {
  }
}
