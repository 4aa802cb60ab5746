// The hero banner's typing effect (script.js `type()`): a cursor over five role titles that types
// one character every 80 ms, waits 2 s on the full title, deletes one character every 40 ms and
// moves on to the next title, pausing while typing is switched off.

module Typing {
  /** The titles, in the order they are typed. */
  const STRINGS: seq<string> := [
    "Software Engineer",
    "Java & React Developer",
    "Full Stack Engineer",
    "Python Automation Builder",
    "DevOps & CI/CD Contributor"
  ]

  /** What the step schedules: `type()` again after `delay` ms, or the callback that starts
      deleting after `delay` ms. */
  datatype Next = Again(delay: nat) | DeleteAfter(delay: nat)

  /** The closure variables `stringIndex`, `charIndex` and `deleting`. */
  datatype Cursor = Cursor(stringIndex: nat, charIndex: nat, deleting: bool)

  /** The length of the title the cursor is on. */
  function Len(c: Cursor): nat
    requires c.stringIndex < |STRINGS|
  {
    |STRINGS[c.stringIndex]|
  }

  /** The cursor is inside its title, and a deleting cursor has something left to delete. */
  predicate WellPlaced(c: Cursor)
  {
    c.stringIndex < |STRINGS| && c.charIndex <= Len(c) && (c.deleting ==> c.charIndex > 0)
  }

  /** The full title is shown and the 2 s callback is due; `type()` itself is not scheduled. */
  predicate Pending(c: Cursor)
    requires c.stringIndex < |STRINGS|
  {
    !c.deleting && c.charIndex == Len(c)
  }

  /** The text shown for a cursor. */
  function Shown(c: Cursor): string
    requires WellPlaced(c)
  {
    STRINGS[c.stringIndex][..c.charIndex]
  }

  lemma TitlesNonEmpty()
    ensures forall i :: 0 <= i < |STRINGS| ==> |STRINGS[i]| > 0
  {
    var s := STRINGS;
    assert |s[0]| > 0 && |s[1]| > 0 && |s[2]| > 0 && |s[3]| > 0 && |s[4]| > 0;
  }

  /** One `type()` call: paused when typing is off, else one character forward or back; the
      title index moves on only when deletion reaches the start. */
  function Step(c: Cursor, active: bool): (r: (Cursor, Next))
    requires WellPlaced(c) && !Pending(c)
    ensures WellPlaced(r.0)
    ensures !active ==> r == (c, Again(500))
    ensures active && !c.deleting ==> r.0.charIndex == c.charIndex + 1 && r.0.stringIndex == c.stringIndex
    ensures active && c.deleting ==> r.0.charIndex == c.charIndex - 1 || (c.charIndex == 1 && r.0.charIndex == 0)
    ensures r.0.stringIndex != c.stringIndex <==> active && c.deleting && c.charIndex == 1
    ensures r.0.stringIndex != c.stringIndex ==> r.0.stringIndex == (c.stringIndex + 1) % |STRINGS| && r.0 == Cursor(r.0.stringIndex, 0, false)
    ensures r.1.DeleteAfter? <==> active && Pending(r.0)
    ensures r.1.DeleteAfter? ==> r.1.delay == 2000
    ensures r.0.stringIndex != c.stringIndex ==> r.1 == Again(500)
    ensures active && !c.deleting && !Pending(r.0) ==> r.1 == Again(80)
    ensures active && r.0.deleting ==> r.1 == Again(40)
    ensures active && c.deleting && c.charIndex > 1 ==> r == (Cursor(c.stringIndex, c.charIndex - 1, true), Again(40))
  {
    TitlesNonEmpty();
    if !active then (c, Again(500))
    else if !c.deleting then
      var k := c.charIndex + 1;
      if k == Len(c) then (Cursor(c.stringIndex, k, false), DeleteAfter(2000))
      else (Cursor(c.stringIndex, k, false), Again(80))
    else
      var k := c.charIndex - 1;
      if k == 0 then (Cursor((c.stringIndex + 1) % |STRINGS|, 0, false), Again(500))
      else (Cursor(c.stringIndex, k, true), Again(40))
  }

  /** A step shows the next prefix of the title: one character longer when typing, one shorter
      when deleting. */
  lemma StepShowsPrefix(c: Cursor, active: bool)
    requires WellPlaced(c) && !Pending(c) && active
    ensures !c.deleting ==> Shown(Step(c, active).0) == Shown(c) + [STRINGS[c.stringIndex][c.charIndex]]
    ensures c.deleting ==> Shown(c) == Shown(Step(c, active).0) + [STRINGS[c.stringIndex][c.charIndex - 1]]
  {
    var t := STRINGS[c.stringIndex];
    var next := Step(c, active).0;
    if !c.deleting {
      assert next == Cursor(c.stringIndex, c.charIndex + 1, false);
      assert t[..c.charIndex + 1] == t[..c.charIndex] + [t[c.charIndex]];
    } else if c.charIndex > 1 {
      assert next == Cursor(c.stringIndex, c.charIndex - 1, true);
      assert t[..c.charIndex] == t[..c.charIndex - 1] + [t[c.charIndex - 1]];
    } else {
      assert next.charIndex == 0;
    }
  }

  /** The 2 s callback: start deleting, then run `type()` at once. */
  function StartDeleting(c: Cursor, active: bool): (r: (Cursor, Next))
    requires WellPlaced(c) && Pending(c)
    ensures WellPlaced(r.0) && r.0.stringIndex == c.stringIndex
    ensures active ==> r.0 == Cursor(c.stringIndex, c.charIndex - 1, c.charIndex > 1) && r.1.Again?
    ensures !active ==> r == (Cursor(c.stringIndex, c.charIndex, true), Again(500))
  {
    TitlesNonEmpty();
    Step(Cursor(c.stringIndex, c.charIndex, true), active)
  }

  /** `n` steps with typing switched on, stopping when the callback becomes due. */
  function Run(c: Cursor, n: nat): (r: Cursor)
    requires WellPlaced(c)
    ensures WellPlaced(r)
    decreases n
  {
    if n == 0 || Pending(c) then c else Run(Step(c, true).0, n - 1)
  }

  /** Typing from position `k` reaches `k + n` while the title is not complete. */
  lemma {:induction false} TypingForward(i: nat, k: nat, n: nat)
    requires i < |STRINGS| && k + n <= |STRINGS[i]|
    ensures Run(Cursor(i, k, false), n) == Cursor(i, k + n, false)
    decreases n
  {
    if n > 0 {
      TypingForward(i, k + 1, n - 1);
    }
  }

  /** Deleting from position `k` removes one character per step and then moves to the next
      title at position 0, typing. */
  lemma {:induction false} DeletingBackward(i: nat, k: nat)
    requires i < |STRINGS| && 0 < k <= |STRINGS[i]|
    ensures Run(Cursor(i, k, true), k) == Cursor((i + 1) % |STRINGS|, 0, false)
    decreases k
  {
    TitlesNonEmpty();
    if k > 1 {
      DeletingBackward(i, k - 1);
    }
  }

  /** A whole cycle: the title is typed out until the callback is due, and after the callback
      the deletion ends on the next title, empty and typing. */
  lemma TypingCycle(i: nat)
    requires i < |STRINGS|
    ensures Pending(Run(Cursor(i, 0, false), |STRINGS[i]|))
    ensures Shown(Run(Cursor(i, 0, false), |STRINGS[i]|)) == STRINGS[i]
    ensures Run(Cursor(i, |STRINGS[i]|, true), |STRINGS[i]|) == Cursor((i + 1) % |STRINGS|, 0, false)
  {
    TitlesNonEmpty();
    TypingForward(i, 0, |STRINGS[i]|);
    DeletingBackward(i, |STRINGS[i]|);
  }

  /** The typing effect's closure state together with the text element. */
  class Typewriter {
    var stringIndex: nat
    var charIndex: nat
    var deleting: bool
    var text: string

    function Cur(): Cursor
      reads this
    {
      Cursor(stringIndex, charIndex, deleting)
    }

    /** The cursor is valid and the element shows its prefix. */
    ghost predicate Valid()
      reads this
    {
      WellPlaced(Cur()) && text == Shown(Cur())
    }

    constructor ()
      ensures Valid() && Cur() == Cursor(0, 0, false) && text == ""
    {
      stringIndex, charIndex, deleting := 0, 0, false;
      text := "";
    }

    /** `type()`. */
    method Type(active: bool) returns (next: Next)
      requires Valid() && !Pending(Cur())
      modifies this
      ensures Valid()
      ensures (Cur(), next) == Step(old(Cur()), active)
    {
      if !active {
        return Again(500);
      }
      var current := STRINGS[stringIndex];
      if !deleting {
        text := current[..charIndex + 1];
        charIndex := charIndex + 1;
        if charIndex == |current| {
          return DeleteAfter(2000);
        }
      } else {
        text := current[..charIndex - 1];
        charIndex := charIndex - 1;
        if charIndex == 0 {
          deleting := false;
          stringIndex := (stringIndex + 1) % |STRINGS|;
          return Again(500);
        }
      }
      next := if deleting then Again(40) else Again(80);
    }

    /** The callback scheduled 2 s after a title is complete. */
    method BeginDeleting(active: bool) returns (next: Next)
      requires Valid() && Pending(Cur())
      modifies this
      ensures Valid()
      ensures (Cur(), next) == StartDeleting(old(Cur()), active)
    {
      TitlesNonEmpty();
      deleting := true;
      next := Type(active);
    }
  }
}
