/**
 * The two easter eggs: the Konami-code recogniser over a sliding window
 * of key codes, and the seven-click counter on the logo.
 */
module EasterEggs {
  import opened JsText

  const KonamiCode: seq<string> := [
    "ArrowUp", "ArrowUp", "ArrowDown", "ArrowDown",
    "ArrowLeft", "ArrowRight", "ArrowLeft", "ArrowRight", "KeyB", "KeyA"
  ]

  /** Both the window and the code are compared as their `join(',')`. */
  const Comma: string := ","

  /** No code holds the join separator, so a join can be split back. */
  predicate CommaFree(codes: seq<string>) {
    forall i :: 0 <= i < |codes| ==> ',' !in codes[i]
  }

  /**
   * The window after `code` is pushed and, once it is longer than the
   * Konami code, its oldest entry shifted out: the latest codes, ending
   * with `code`.
   */
  function Slide(window: seq<string>, code: string): (w: seq<string>)
    ensures |window| <= |KonamiCode| ==> |w| == if |window| < |KonamiCode| then |window| + 1 else |KonamiCode|
    ensures 0 < |w| <= |window| + 1
    ensures w == (window + [code])[|window| + 1 - |w|..]
  {
    var pushed := window + [code];
    if |pushed| > |KonamiCode| then pushed[1..] else pushed
  }

  datatype KeyResult = KeyResult(window: seq<string>, fired: bool)

  /** One key press: slide the window; on a match, fire and empty it. */
  function KonamiKey(window: seq<string>, code: string): (r: KeyResult)
    ensures |window| <= |KonamiCode| ==> |r.window| <= |KonamiCode|
    ensures r.fired ==> r.window == []
    ensures !r.fired ==> r.window == Slide(window, code)
  {
    var w := Slide(window, code);
    if Join(w, Comma) == Join(KonamiCode, Comma) then KeyResult([], true) else KeyResult(w, false)
  }

  lemma KonamiCodeCommaFree()
    ensures CommaFree(KonamiCode)
  {
  }

  /**
   * With comma-free key codes, ghost mode fires exactly when the slid
   * window equals the Konami code, that is when the last ten keys pressed
   * since the last reset spell it.
   */
  lemma KonamiExact(window: seq<string>, code: string)
    requires CommaFree(window) && ',' !in code
    ensures KonamiKey(window, code).fired <==> Slide(window, code) == KonamiCode
  {
    var w := Slide(window, code);
    KonamiCodeCommaFree();
    if Join(w, Comma) == Join(KonamiCode, Comma) {
      assert CommaFree(w) by {
        forall i | 0 <= i < |w|
          ensures ',' !in w[i]
        {
          var j := |window| + 1 - |w| + i;
          assert w[i] == (window + [code])[j];
          if j < |window| {
            assert (window + [code])[j] == window[j];
          }
        }
      }
      SplitJoin(w, Comma);
      SplitJoin(KonamiCode, Comma);
    }
  }

  /**
   * The comparison is of joined strings, so a single key code that holds
   * commas can match the whole sequence.
   */
  lemma CommaCodeFires()
    ensures KonamiKey([], Join(KonamiCode, Comma)).fired
    ensures Slide([], Join(KonamiCode, Comma)) != KonamiCode
  {
  }

  /** Clicks on the logo within the decay time that unlock the secret area. */
  const UnlockClicks: nat := 7

  datatype ClickResult = ClickResult(count: nat, unlocked: bool)

  /** One logo click: count it; at `UnlockClicks`, unlock and start over. */
  function LogoClick(count: nat): (r: ClickResult)
    ensures r.unlocked <==> count + 1 >= UnlockClicks
    ensures r.count < UnlockClicks
    ensures r.unlocked ==> r.count == 0
    ensures !r.unlocked ==> r.count == count + 1
  {
    var c := count + 1;
    if c >= UnlockClicks then ClickResult(0, true) else ClickResult(c, false)
  }

  /** The timer one second after a click: one click forgotten, never below zero. */
  function Decay(count: nat): (r: nat)
    ensures r <= count && (count > 0 ==> r == count - 1)
  {
    if count > 0 then count - 1 else 0
  }

  /** `n` clicks in a row, with no decay between them. */
  function Clicks(count: nat, n: nat): ClickResult
    decreases n
  {
    if n == 0 then ClickResult(count, false)
    else
      var first := LogoClick(count);
      var rest := Clicks(first.count, n - 1);
      ClickResult(rest.count, first.unlocked || rest.unlocked)
  }

  /**
   * From a count below the threshold, `n` clicks in a row unlock the
   * secret area exactly when they bring the count to seven.
   */
  lemma {:induction false} ClicksUnlock(count: nat, n: nat)
    requires count < UnlockClicks
    ensures Clicks(count, n).unlocked <==> count + n >= UnlockClicks
    decreases n
  {
    if n > 0 {
      ClicksUnlock(LogoClick(count).count, n - 1);
    }
  }
}
