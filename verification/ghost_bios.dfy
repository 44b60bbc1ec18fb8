/**
 * The controller object: the state the page's callbacks update in place.
 * Each callback is one method; DOM element presence, `Math.random()`
 * draws and the wall-clock time stamp are parameters.
 */
module GhostBios {
  import opened Wrappers
  import opened JsMath
  import opened ActivityLog
  import opened GhostProcesses
  import opened Popups
  import opened EasterEggs
  import opened Boot

  class GhostBios {
    var bootComplete: bool
    /** Whether the one-shot key listener of the boot sequence is still registered. */
    var bootKeyListening: bool
    var activePopup: Option<string>
    /** How many Escape listeners `openPopup` has registered; `closePopup` never removes one. */
    var escapeListeners: nat
    var ghostProcesses: seq<Process>
    var logEntries: seq<string>
    /** The Konami window (a closure variable of the key handler). */
    var konami: seq<string>
    /** The logo click counter (a closure variable of the click handler). */
    var clickCount: nat
    /** Whether the logo existed at start-up, so that its click listener was registered. */
    const logoListening: bool
    /** Whether the boot screen and the main interface existed when the boot sequence looked them up. */
    const bootScreen: bool
    const bios: bool

    ghost predicate Valid()
      reads this
    {
      5 <= |logEntries| <= Capacity &&
      Table(ghostProcesses) &&
      |konami| <= |KonamiCode| &&
      clickCount < UnlockClicks
    }

    /** The constructor and `init`: the data each init step sets up. */
    constructor (spectralLoad: real, hauntLoad: real, logoPresent: bool, bootScreenPresent: bool, biosPresent: bool)
      requires IsDraw(spectralLoad) && IsDraw(hauntLoad)
      ensures Valid()
      ensures !bootComplete && bootKeyListening
      ensures activePopup == None && escapeListeners == 0
      ensures ghostProcesses == InitialTable(spectralLoad, hauntLoad)
      ensures logEntries == InitialEntries
      ensures konami == [] && clickCount == 0 && logoListening == logoPresent
      ensures bootScreen == bootScreenPresent && bios == biosPresent
    {
      bootComplete := false;
      bootKeyListening := true;
      activePopup := None;
      escapeListeners := 0;
      ghostProcesses := InitialTable(spectralLoad, hauntLoad);
      logEntries := InitialEntries;
      konami := [];
      clickCount := 0;
      logoListening := logoPresent;
      bootScreen := bootScreenPresent;
      bios := biosPresent;
    }

    /* === Boot sequence === */

    /** The three-second timeout; `Swapped` means the views swapped and the boot sound played. */
    method BootTimeout() returns (outcome: Outcome)
      modifies this`bootComplete
      ensures (BootState(bootComplete, bootKeyListening), outcome) ==
              OnTimeout(BootState(old(bootComplete), bootKeyListening), bootScreen, bios)
      ensures old(bootComplete) ==> bootComplete
    {
      outcome := Skipped;
      if bootScreen {
        if !bios {
          return Crashed;
        }
        bootComplete := true;
        outcome := Swapped;
      }
    }

    /** The boot sequence's one-shot key listener. */
    method BootKeyDown() returns (outcome: Outcome)
      modifies this`bootComplete, this`bootKeyListening
      ensures (BootState(bootComplete, bootKeyListening), outcome) ==
              OnKeyDown(BootState(old(bootComplete), old(bootKeyListening)), bootScreen, bios)
      ensures old(bootComplete) ==> bootComplete && outcome == Skipped
    {
      outcome := Skipped;
      if !bootKeyListening {
        return;
      }
      bootKeyListening := false;
      if !bootComplete {
        if !bootScreen || !bios {
          return Crashed;
        }
        bootComplete := true;
        outcome := Swapped;
      }
    }

    /* === Activity log === */

    /** `addRandomLogEntry`: put `[timestamp] message` first and keep the ten newest. */
    method AddRandomLogEntry(timestamp: string, draw: real)
      requires Valid() && IsDraw(draw)
      modifies this`logEntries
      ensures Valid()
      ensures logEntries == Prepend(old(logEntries), MakeEntry(timestamp, PickMessage(draw)))
      ensures |logEntries| == Min(|old(logEntries)| + 1, Capacity)
    {
      var message := RandomEntries[RandomBelow(draw, |RandomEntries|)];
      logEntries := [MakeEntry(timestamp, message)] + logEntries;
      if |logEntries| > Capacity {
        logEntries := logEntries[..Capacity];
      }
    }

    /** The (time stamp, message) pairs `renderActivityLog` shows, one per line, in log order. */
    method LogRows() returns (rows: seq<(string, string)>)
      ensures |rows| == |logEntries|
      ensures forall i :: 0 <= i < |rows| ==> rows[i] == SplitEntry(logEntries[i])
    {
      rows := [];
      var i := 0;
      while i < |logEntries|
        invariant 0 <= i <= |logEntries|
        invariant |rows| == i
        invariant forall k :: 0 <= k < i ==> rows[k] == SplitEntry(logEntries[k])
      {
        rows := rows + [SplitEntry(logEntries[i])];
        i := i + 1;
      }
    }

    /* === Ghost processes === */

    /**
     * `updateGhostProcesses`: redraw every numeric load (row `i` uses
     * `loads[i]`), then maybe spawn one process; nothing at all when the
     * process list element is missing.
     */
    method UpdateGhostProcesses(listPresent: bool, loads: seq<real>, spawn: SpawnDraws)
      requires Valid() && |loads| == |ghostProcesses| && AllDraws(loads) && ValidDraws(spawn)
      modifies this`ghostProcesses
      ensures Valid()
      ensures ghostProcesses ==
              if listPresent then Spawn(Retick(old(ghostProcesses), loads), spawn) else old(ghostProcesses)
    {
      if !listPresent {
        return;
      }
      ghost var before := ghostProcesses;
      var i := 0;
      while i < |ghostProcesses|
        invariant 0 <= i <= |ghostProcesses| == |before|
        invariant forall k :: 0 <= k < i ==> ghostProcesses[k] == Tick(before[k], loads[k])
        invariant forall k :: i <= k < |before| ==> ghostProcesses[k] == before[k]
      {
        if ghostProcesses[i].cpu.Num? {
          ghostProcesses := ghostProcesses[i := ghostProcesses[i].(cpu := Num(Load(loads[i])))];
        }
        i := i + 1;
      }
      assert ghostProcesses == Retick(before, loads);
      TickKeepsTable(before, loads, spawn);
      if spawn.chance < SpawnChance {
        var newcomer := Newcomer(spawn);
        if |ghostProcesses| < MaxProcesses {
          ghostProcesses := ghostProcesses + [newcomer];
        }
      }
    }

    /** The five-second interval: tick the process table, then add a log line. */
    method SimulationTick(listPresent: bool, loads: seq<real>, spawn: SpawnDraws, timestamp: string, draw: real)
      requires Valid() && |loads| == |ghostProcesses| && AllDraws(loads) && ValidDraws(spawn) && IsDraw(draw)
      modifies this`ghostProcesses, this`logEntries
      ensures Valid()
      ensures ghostProcesses ==
              if listPresent then Spawn(Retick(old(ghostProcesses), loads), spawn) else old(ghostProcesses)
      ensures logEntries == Prepend(old(logEntries), MakeEntry(timestamp, PickMessage(draw)))
    {
      UpdateGhostProcesses(listPresent, loads, spawn);
      AddRandomLogEntry(timestamp, draw);
    }

    /** The state part of `triggerGlitch`: a log line first, then a process tick. */
    method TriggerGlitch(timestamp: string, draw: real, listPresent: bool, loads: seq<real>, spawn: SpawnDraws)
      requires Valid() && |loads| == |ghostProcesses| && AllDraws(loads) && ValidDraws(spawn) && IsDraw(draw)
      modifies this`ghostProcesses, this`logEntries
      ensures Valid()
      ensures logEntries == Prepend(old(logEntries), MakeEntry(timestamp, PickMessage(draw)))
      ensures ghostProcesses ==
              if listPresent then Spawn(Retick(old(ghostProcesses), loads), spawn) else old(ghostProcesses)
    {
      AddRandomLogEntry(timestamp, draw);
      UpdateGhostProcesses(listPresent, loads, spawn);
    }

    /* === Popups === */

    /**
     * `openPopup`: with overlay, title and body elements all present, make
     * `popupType` the active popup (replacing any other), register one more
     * Escape listener and return what is shown; otherwise change nothing.
     */
    method OpenPopup(popupType: string, overlay: bool, title: bool, content: bool)
      returns (shown: Option<PopupContent>)
      modifies this`activePopup, this`escapeListeners
      ensures overlay && title && content ==>
        activePopup == Some(popupType) && escapeListeners == old(escapeListeners) + 1 &&
        shown == Some(GetPopupContent(popupType))
      ensures !(overlay && title && content) ==>
        activePopup == old(activePopup) && escapeListeners == old(escapeListeners) && shown == None
    {
      if !overlay || !title || !content {
        return None;
      }
      activePopup := Some(popupType);
      shown := Some(GetPopupContent(popupType));
      escapeListeners := escapeListeners + 1;
    }

    /**
     * `closePopup`: with the overlay present, no popup is active, whatever
     * was opened before. The Escape listeners stay registered.
     */
    method ClosePopup(overlay: bool)
      modifies this`activePopup
      ensures activePopup == if overlay then None else old(activePopup)
    {
      if overlay {
        activePopup := None;
      }
    }

    /** One registered Escape listener: Escape closes the popup, other keys do nothing. */
    method PopupKeyDown(key: string, overlay: bool)
      requires escapeListeners > 0
      modifies this`activePopup
      ensures activePopup == if key == "Escape" && overlay then None else old(activePopup)
    {
      if key == "Escape" {
        ClosePopup(overlay);
      }
    }

    /** The state part of `applySettings`: close the popup, then add a log line. */
    method ApplySettings(overlay: bool, timestamp: string, draw: real)
      requires Valid() && IsDraw(draw)
      modifies this`activePopup, this`logEntries
      ensures Valid()
      ensures activePopup == if overlay then None else old(activePopup)
      ensures logEntries == Prepend(old(logEntries), MakeEntry(timestamp, PickMessage(draw)))
    {
      ClosePopup(overlay);
      AddRandomLogEntry(timestamp, draw);
    }

    /* === Easter eggs === */

    /**
     * The Konami key handler: slide the window; on a match activate ghost
     * mode (whose state part is one log line) and empty the window.
     */
    method KonamiKeyDown(code: string, timestamp: string, draw: real) returns (fired: bool)
      requires Valid() && IsDraw(draw)
      modifies this`konami, this`logEntries
      ensures Valid()
      ensures KeyResult(konami, fired) == KonamiKey(old(konami), code)
      ensures logEntries ==
              if fired then Prepend(old(logEntries), MakeEntry(timestamp, PickMessage(draw))) else old(logEntries)
    {
      konami := konami + [code];
      if |konami| > |KonamiCode| {
        konami := konami[1..];
      }
      fired := JsText.Join(konami, Comma) == JsText.Join(KonamiCode, Comma);
      if fired {
        AddRandomLogEntry(timestamp, draw);
        konami := [];
      }
    }

    /**
     * The logo click handler: count the click; on the seventh, open the
     * `'secret'` popup and start over. `shown` is what that popup shows
     * before its body is overwritten.
     */
    method LogoClick(overlay: bool, title: bool, content: bool)
      returns (unlocked: bool, shown: Option<PopupContent>)
      requires Valid()
      modifies this`clickCount, this`activePopup, this`escapeListeners
      ensures Valid()
      ensures !logoListening ==>
        !unlocked && clickCount == old(clickCount) && activePopup == old(activePopup) &&
        escapeListeners == old(escapeListeners) && shown == None
      ensures logoListening ==> ClickResult(clickCount, unlocked) == EasterEggs.LogoClick(old(clickCount))
      ensures unlocked && overlay && title && content ==>
        activePopup == Some("secret") && shown == Some(Fallback) &&
        escapeListeners == old(escapeListeners) + 1
      ensures !(unlocked && overlay && title && content) ==>
        activePopup == old(activePopup) && escapeListeners == old(escapeListeners) && shown == None
    {
      unlocked, shown := false, None;
      if !logoListening {
        return;
      }
      clickCount := clickCount + 1;
      if clickCount >= UnlockClicks {
        unlocked := true;
        shown := OpenPopup("secret", overlay, title, content);
        clickCount := 0;
      }
    }

    /** The timer one second after each logo click. */
    method LogoClickDecay()
      requires Valid()
      modifies this`clickCount
      ensures Valid()
      ensures clickCount == Decay(old(clickCount))
    {
      clickCount := if clickCount > 0 then clickCount - 1 else 0;
    }
  }
}
