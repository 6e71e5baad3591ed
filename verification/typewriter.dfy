/**
  The typing effect of both scripts (`typeWriter` and `initTypingEffect`): the
  element's text is emptied and then grows by one character of the target
  text per timer tick until the whole text is shown. The tick interval and the
  initial delay are timing only and are left out. Neither script calls its
  typing effect: the portfolio's call is commented out and `typeWriter` has no
  caller.
 */
module Typewriter {

  /** The text to type, the element's current text and the index of the next
      character. */
  datatype Typing = Typing(text: string, shown: string, index: nat)

  /** The element after its text has been cleared, before the first tick. */
  function Start(text: string): (t: Typing)
    ensures t.shown == [] && t.index == 0 && t.text == text
  {
    Typing(text, [], 0)
  }

  /** The state every tick keeps: what is shown is the first `index`
      characters of the text. */
  predicate Consistent(t: Typing) {
    t.index <= |t.text| && t.shown == t.text[..t.index]
  }

  /** One call of the inner `type`/`typeChar`: append `text.charAt(index)` and
      advance, or stop (schedule nothing) once the index reaches the end. */
  function Tick(t: Typing): (r: Typing)
    ensures r.text == t.text
    ensures Consistent(t) ==> Consistent(r)
    ensures t.index < |t.text| ==> r.index == t.index + 1 && r.shown == t.shown + [t.text[t.index]]
    ensures t.index >= |t.text| ==> r == t
  {
    if t.index < |t.text| then Typing(t.text, t.shown + [t.text[t.index]], t.index + 1) else t
  }

  function Ticks(t: Typing, n: nat): Typing
    decreases n
  {
    if n == 0 then t else Ticks(Tick(t), n - 1)
  }

  function Min(a: nat, b: nat): nat {
    if a <= b then a else b
  }

  /** After `n` ticks from the start the element shows the first `n`
      characters of the text, or the whole text once `n` reaches its length. */
  lemma {:induction false} TicksShowPrefix(text: string, n: nat)
    ensures Ticks(Start(text), n).shown == text[..Min(n, |text|)]
  {
    assert Consistent(Start(text));
    TicksFrom(Start(text), n);
  }

  lemma {:induction false} TicksFrom(t: Typing, n: nat)
    requires Consistent(t)
    ensures Consistent(Ticks(t, n)) && Ticks(t, n).text == t.text
    ensures Ticks(t, n).index == Min(t.index + n, |t.text|)
    decreases n
  {
    if n > 0 {
      TicksFrom(Tick(t), n - 1);
    }
  }

  /** Once the whole text is shown, further ticks change nothing. */
  lemma {:induction false} FinishedStaysFinished(t: Typing, n: nat)
    requires t.index >= |t.text|
    ensures Ticks(t, n) == t
    decreases n
  {
    if n > 0 {
      FinishedStaysFinished(Tick(t), n - 1);
    }
  }
}
