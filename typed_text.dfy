/**
 * The hero section's typing effect: a role string is typed one character per
 * tick, held, deleted one character per tick, and the next role follows.
 * The closure state of `typeEffect` is a record; one call of `typeEffect` is
 * `Step`, and the object `Typer` performs it in place. The timer that calls
 * `typeEffect` again after `typingSpeed` milliseconds is the caller's loop.
 */
module TypedText {
  import opened Dom

  /** The four roles the hero cycles through, in order. */
  const ROLES: seq<string> :=
    ["Full-Stack Developer", "Front-End Enthusiast", "Back-End Architect", "Problem Solver"]

  /** Delays, in milliseconds, before the next tick. */
  const TYPE_DELAY := 100
  const DELETE_DELAY := 50
  const FULL_PAUSE := 2000
  const EMPTY_PAUSE := 500
  // The first tick comes 1500 ms after start-up; timers are the caller's business.

  datatype TypeState = TypeState(roleIndex: int, charIndex: int, isDeleting: bool, typingSpeed: int)

  /** What one tick does: the state after it and the text it writes. */
  datatype Tick = Tick(next: TypeState, shown: string)

  /** The state the closure starts in. */
  function Initial(): (s: TypeState)
    ensures forall roles: seq<string> :: |roles| > 0 ==> Inv(roles, s)
    ensures s.roleIndex == 0 && s.charIndex == 0 && !s.isDeleting
  {
    TypeState(0, 0, false, TYPE_DELAY)
  }

  /**
   * The invariant that holds before every tick: the role index is in range;
   * while typing, -1 <= charIndex <= |role|; while deleting,
   * 0 <= charIndex <= |role| + 1.
   */
  predicate Inv(roles: seq<string>, s: TypeState)
  {
    && 0 <= s.roleIndex < |roles|
    && (if s.isDeleting then 0 <= s.charIndex <= |roles[s.roleIndex]| + 1
        else -1 <= s.charIndex <= |roles[s.roleIndex]|)
  }

  /**
   * One call of `typeEffect`. The text written is taken with the character
   * index before its post-increment or post-decrement, and the index is not
   * reset when the role changes.
   */
  function Step(roles: seq<string>, s: TypeState): (r: Tick)
    requires 0 <= s.roleIndex < |roles|
    // the text written is the role's prefix of the clamped pre-step length
    ensures r.shown == roles[s.roleIndex][..Clamp(s.charIndex, 0, |roles[s.roleIndex]|)]
    ensures r.shown <= roles[s.roleIndex]
    // post-increment while typing, post-decrement while deleting, never reset
    ensures r.next.charIndex == if s.isDeleting then s.charIndex - 1 else s.charIndex + 1
    // the role advances (cyclically) only on the deleting tick that goes below 0
    ensures 0 <= r.next.roleIndex < |roles|
    ensures r.next.roleIndex ==
              if s.isDeleting && s.charIndex - 1 < 0 then (s.roleIndex + 1) % |roles| else s.roleIndex
    // the long pause comes exactly when typing reaches |role| + 1, and starts deleting
    ensures r.next.typingSpeed == FULL_PAUSE <==> !s.isDeleting && s.charIndex + 1 == |roles[s.roleIndex]| + 1
    // the short pause comes exactly when deleting goes negative, and starts typing
    ensures r.next.typingSpeed == EMPTY_PAUSE <==> s.isDeleting && s.charIndex - 1 < 0
    // the mode flips exactly on those two ticks; otherwise the per-character delay applies
    ensures r.next.isDeleting != s.isDeleting <==> r.next.typingSpeed in {FULL_PAUSE, EMPTY_PAUSE}
    ensures r.next.typingSpeed == FULL_PAUSE ==> r.next.isDeleting
    ensures r.next.typingSpeed == EMPTY_PAUSE ==> !r.next.isDeleting
    ensures r.next.typingSpeed !in {FULL_PAUSE, EMPTY_PAUSE} ==>
              r.next.typingSpeed == if s.isDeleting then DELETE_DELAY else TYPE_DELAY
    // the invariant is preserved
    ensures Inv(roles, s) ==> Inv(roles, r.next)
  {
    var role := roles[s.roleIndex];
    SubstringFromZero(role, s.charIndex);
    var shown := Substring(role, 0, s.charIndex);
    var charIndex := if s.isDeleting then s.charIndex - 1 else s.charIndex + 1;
    if !s.isDeleting && charIndex == |role| + 1 then
      Tick(TypeState(s.roleIndex, charIndex, true, FULL_PAUSE), shown)
    else if s.isDeleting && charIndex < 0 then
      Tick(TypeState((s.roleIndex + 1) % |roles|, charIndex, false, EMPTY_PAUSE), shown)
    else
      Tick(TypeState(s.roleIndex, charIndex, s.isDeleting,
                     if s.isDeleting then DELETE_DELAY else TYPE_DELAY), shown)
  }

  /** The state after `k` ticks. */
  function Run(roles: seq<string>, s: TypeState, k: nat): (r: TypeState)
    requires 0 <= s.roleIndex < |roles|
    ensures 0 <= r.roleIndex < |roles|
    ensures Inv(roles, s) ==> Inv(roles, r)
    decreases k
  {
    if k == 0 then s else Run(roles, Step(roles, s).next, k - 1)
  }

  /** The texts written by the first `k` ticks, in order. */
  function Trace(roles: seq<string>, s: TypeState, k: nat): (t: seq<string>)
    requires 0 <= s.roleIndex < |roles|
    ensures |t| == k
    decreases k
  {
    if k == 0 then [] else [Step(roles, s).shown] + Trace(roles, Step(roles, s).next, k - 1)
  }

  /** Running `a` ticks and then `b` more is running `a + b` ticks. */
  lemma {:induction false} RunAdd(roles: seq<string>, s: TypeState, a: nat, b: nat)
    requires 0 <= s.roleIndex < |roles|
    ensures Run(roles, s, a + b) == Run(roles, Run(roles, s, a), b)
    decreases a
  {
    if a > 0 {
      RunAdd(roles, Step(roles, s).next, a - 1, b);
    }
  }

  /** From the start, the invariant holds before every tick and every text written is a prefix of the current role. */
  lemma {:induction false} AlwaysPrefix(roles: seq<string>, k: nat)
    requires |roles| > 0
    ensures Inv(roles, Run(roles, Initial(), k))
    ensures Trace(roles, Initial(), k + 1)[k] <= roles[Run(roles, Initial(), k).roleIndex]
  {
    TraceAt(roles, Initial(), k);
  }

  /** The `k`-th text written is what the tick from the state after `k` ticks writes. */
  lemma {:induction false} TraceAt(roles: seq<string>, s: TypeState, k: nat)
    requires 0 <= s.roleIndex < |roles|
    ensures Trace(roles, s, k + 1)[k] == Step(roles, Run(roles, s, k)).shown
    decreases k
  {
    if k > 0 {
      TraceAt(roles, Step(roles, s).next, k - 1);
    }
  }

  /**
   * Typing phase: from typing at index c, after |role| + 1 - c ticks the
   * index is |role| + 1, deleting has begun and the long pause is chosen.
   */
  lemma {:induction false} TypingPhase(roles: seq<string>, ri: int, c: int, speed: int)
    requires 0 <= ri < |roles| && -1 <= c <= |roles[ri]|
    ensures Run(roles, TypeState(ri, c, false, speed), |roles[ri]| + 1 - c)
            == TypeState(ri, |roles[ri]| + 1, true, FULL_PAUSE)
    decreases |roles[ri]| - c
  {
    var s := TypeState(ri, c, false, speed);
    if c < |roles[ri]| {
      TypingPhase(roles, ri, c + 1, TYPE_DELAY);
      assert Step(roles, s).next == TypeState(ri, c + 1, false, TYPE_DELAY);
    } else {
      assert Run(roles, Step(roles, s).next, 0) == Step(roles, s).next;
    }
  }

  /**
   * Deleting phase: from deleting at index c >= 0, after c + 1 ticks the
   * index is -1 (not reset), the next role is current, typing has begun and
   * the short pause is chosen.
   */
  lemma {:induction false} DeletingPhase(roles: seq<string>, ri: int, c: int, speed: int)
    requires 0 <= ri < |roles| && 0 <= c
    ensures Run(roles, TypeState(ri, c, true, speed), c + 1)
            == TypeState((ri + 1) % |roles|, -1, false, EMPTY_PAUSE)
    decreases c
  {
    var s := TypeState(ri, c, true, speed);
    if c > 0 {
      DeletingPhase(roles, ri, c - 1, DELETE_DELAY);
      assert Step(roles, s).next == TypeState(ri, c - 1, true, DELETE_DELAY);
    } else {
      assert Run(roles, Step(roles, s).next, 0) == Step(roles, s).next;
    }
  }

  /**
   * A whole role takes 2 * |role| + 4 ticks when it begins at index -1 (the
   * index left over from the previous role) and ends at index -1 on the next
   * role, as it began.
   */
  lemma RoleCycle(roles: seq<string>, ri: int, speed: int)
    requires 0 <= ri < |roles|
    ensures Run(roles, TypeState(ri, -1, false, speed), 2 * |roles[ri]| + 4)
            == TypeState((ri + 1) % |roles|, -1, false, EMPTY_PAUSE)
  {
    var n := |roles[ri]|;
    TypingPhase(roles, ri, -1, speed);
    DeletingPhase(roles, ri, n + 1, FULL_PAUSE);
    RunAdd(roles, TypeState(ri, -1, false, speed), n + 2, n + 2);
  }

  /** The first role, begun at index 0, takes one tick fewer: 2 * |role| + 3. */
  lemma FirstRoleCycle(roles: seq<string>)
    requires |roles| > 0
    ensures Run(roles, Initial(), 2 * |roles[0]| + 3) == TypeState(1 % |roles|, -1, false, EMPTY_PAUSE)
  {
    var n := |roles[0]|;
    TypingPhase(roles, 0, 0, TYPE_DELAY);
    DeletingPhase(roles, 0, n + 1, FULL_PAUSE);
    RunAdd(roles, Initial(), n + 1, n + 2);
  }

  /** The hero's roles have 20, 20, 18 and 14 characters. */
  lemma RoleLengths()
    ensures |ROLES| == 4
    ensures |ROLES[0]| == 20 && |ROLES[1]| == 20 && |ROLES[2]| == 18 && |ROLES[3]| == 14
  {
  }

  /** The stepper at the start of role `ri`, waiting after the previous role emptied. */
  function RoleStart(ri: int): (s: TypeState)
  {
    TypeState(ri, -1, false, EMPTY_PAUSE)
  }

  /** For the hero's four roles, the first pass takes 159 ticks and ends at the first role with index -1. */
  lemma HeroFirstPass()
    ensures Run(ROLES, Initial(), 159) == RoleStart(0)
  {
    RoleLengths();
    FirstRoleCycle(ROLES);
    assert Run(ROLES, Initial(), 43) == RoleStart(1);
    RoleCycle(ROLES, 1, EMPTY_PAUSE);
    assert Run(ROLES, RoleStart(1), 44) == RoleStart(2);
    RoleCycle(ROLES, 2, EMPTY_PAUSE);
    assert Run(ROLES, RoleStart(2), 40) == RoleStart(3);
    RoleCycle(ROLES, 3, EMPTY_PAUSE);
    assert Run(ROLES, RoleStart(3), 32) == RoleStart(0);
    RunAdd(ROLES, Initial(), 43, 44);
    RunAdd(ROLES, Initial(), 87, 40);
    RunAdd(ROLES, Initial(), 127, 32);
  }

  /** From then on the hero's text repeats every 160 ticks. */
  lemma HeroPeriod()
    ensures Run(ROLES, RoleStart(0), 160) == RoleStart(0)
  {
    RoleLengths();
    RoleCycle(ROLES, 0, EMPTY_PAUSE);
    assert Run(ROLES, RoleStart(0), 44) == RoleStart(1);
    RoleCycle(ROLES, 1, EMPTY_PAUSE);
    assert Run(ROLES, RoleStart(1), 44) == RoleStart(2);
    RoleCycle(ROLES, 2, EMPTY_PAUSE);
    assert Run(ROLES, RoleStart(2), 40) == RoleStart(3);
    RoleCycle(ROLES, 3, EMPTY_PAUSE);
    assert Run(ROLES, RoleStart(3), 32) == RoleStart(0);
    RunAdd(ROLES, RoleStart(0), 44, 44);
    RunAdd(ROLES, RoleStart(0), 88, 40);
    RunAdd(ROLES, RoleStart(0), 128, 32);
  }

  /** A state that recurs after `p` ticks recurs after every multiple of `p`. */
  lemma {:induction false} Periodic(roles: seq<string>, s: TypeState, p: nat, m: nat)
    requires 0 <= s.roleIndex < |roles|
    requires Run(roles, s, p) == s
    ensures Run(roles, s, p * m) == s
    decreases m
  {
    if m > 0 {
      Periodic(roles, s, p, m - 1);
      RunAdd(roles, s, p * (m - 1), p);
      assert p * (m - 1) + p == p * m;
    }
  }

  /** From the end of the first pass on, the hero's text repeats every 160 ticks, forever. */
  lemma HeroRepeats(m: nat)
    ensures Run(ROLES, RoleStart(0), 160 * m) == RoleStart(0)
  {
    HeroPeriod();
    Periodic(ROLES, RoleStart(0), 160, m);
  }

  /**
   * The full role stays on screen for three ticks at the turn: the tick that
   * reaches the end, and the first two deleting ticks (indices |role| + 1 and
   * |role| both clamp to the full length).
   */
  lemma FullRoleHeld(roles: seq<string>, ri: int, speed: int)
    requires 0 <= ri < |roles|
    ensures var s := TypeState(ri, |roles[ri]|, false, speed);
            Trace(roles, s, 3) == [roles[ri], roles[ri], roles[ri]]
  {
    var n := |roles[ri]|;
    var s0 := TypeState(ri, n, false, speed);
    var s1 := TypeState(ri, n + 1, true, FULL_PAUSE);
    var s2 := TypeState(ri, n, true, DELETE_DELAY);
    assert Step(roles, s0) == Tick(s1, roles[ri]);
    assert Step(roles, s1).next == s2 && Step(roles, s1).shown == roles[ri];
    assert Step(roles, s2).shown == roles[ri];
    assert Trace(roles, s2, 1) == [roles[ri]] + Trace(roles, Step(roles, s2).next, 0);
  }

  /** One tick of the example with the roles "A" and "BB". */
  lemma TwoRoleTick(s: TypeState, next: TypeState, shown: string)
    requires 0 <= s.roleIndex < 2
    requires Step(["A", "BB"], s) == Tick(next, shown)
    ensures Trace(["A", "BB"], s, 1) == [shown]
    ensures forall k: nat :: Trace(["A", "BB"], s, k + 1) == [shown] + Trace(["A", "BB"], next, k)
    ensures forall k: nat :: Run(["A", "BB"], s, k + 1) == Run(["A", "BB"], next, k)
  {
  }

  /**
   * For the roles "A" and "BB" the first 14 ticks write these texts: empty
   * text is written twice before "B" because the index restarts at -1, and
   * each full role three times. After them the closure is back in its
   * initial state.
   */
  lemma TwoRoleTrace()
    ensures Trace(["A", "BB"], Initial(), 14)
            == ["", "A", "A", "A", "", "", "", "B", "BB", "BB", "BB", "B", "", ""]
    ensures Run(["A", "BB"], Initial(), 14) == TypeState(0, 0, false, TYPE_DELAY)
  {
    TwoRoleTick(TypeState(0, 0, false, 100), TypeState(0, 1, false, 100), "");
    TwoRoleTick(TypeState(0, 1, false, 100), TypeState(0, 2, true, 2000), "A");
    TwoRoleTick(TypeState(0, 2, true, 2000), TypeState(0, 1, true, 50), "A");
    TwoRoleTick(TypeState(0, 1, true, 50), TypeState(0, 0, true, 50), "A");
    TwoRoleTick(TypeState(0, 0, true, 50), TypeState(1, -1, false, 500), "");
    TwoRoleTick(TypeState(1, -1, false, 500), TypeState(1, 0, false, 100), "");
    TwoRoleTick(TypeState(1, 0, false, 100), TypeState(1, 1, false, 100), "");
    TwoRoleTick(TypeState(1, 1, false, 100), TypeState(1, 2, false, 100), "B");
    TwoRoleTick(TypeState(1, 2, false, 100), TypeState(1, 3, true, 2000), "BB");
    TwoRoleTick(TypeState(1, 3, true, 2000), TypeState(1, 2, true, 50), "BB");
    TwoRoleTick(TypeState(1, 2, true, 50), TypeState(1, 1, true, 50), "BB");
    TwoRoleTick(TypeState(1, 1, true, 50), TypeState(1, 0, true, 50), "B");
    TwoRoleTick(TypeState(1, 0, true, 50), TypeState(0, -1, false, 500), "");
    TwoRoleTick(TypeState(0, -1, false, 500), TypeState(0, 0, false, 100), "");
    var last := TypeState(0, 0, false, 100);
    assert Run(["A", "BB"], last, 0) == last;
    assert Run(["A", "BB"], TypeState(0, -1, false, 500), 1) == last;
    assert Run(["A", "BB"], TypeState(1, 0, true, 50), 2) == last;
    assert Run(["A", "BB"], TypeState(1, 1, true, 50), 3) == last;
    assert Run(["A", "BB"], TypeState(1, 2, true, 50), 4) == last;
    assert Run(["A", "BB"], TypeState(1, 3, true, 2000), 5) == last;
    assert Run(["A", "BB"], TypeState(1, 2, false, 100), 6) == last;
    assert Run(["A", "BB"], TypeState(1, 1, false, 100), 7) == last;
    assert Run(["A", "BB"], TypeState(1, 0, false, 100), 8) == last;
    assert Run(["A", "BB"], TypeState(1, -1, false, 500), 9) == last;
    assert Run(["A", "BB"], TypeState(0, 0, true, 50), 10) == last;
    assert Run(["A", "BB"], TypeState(0, 1, true, 50), 11) == last;
    assert Run(["A", "BB"], TypeState(0, 2, true, 2000), 12) == last;
    assert Run(["A", "BB"], TypeState(0, 1, false, 100), 13) == last;
    assert Run(["A", "BB"], TypeState(0, 0, false, 100), 14) == last;
  }

  /** The closure of `typeEffect` together with the element it writes into. */
  class Typer {
    const roles: seq<string>
    var roleIndex: int
    var charIndex: int
    var isDeleting: bool
    var typingSpeed: int
    /** The `textContent` of the typed-text element. */
    var textContent: string

    function State(): (s: TypeState)
      reads this
    {
      TypeState(roleIndex, charIndex, isDeleting, typingSpeed)
    }

    ghost predicate Valid()
      reads this
    {
      |roles| > 0 && Inv(roles, State())
    }

    /** Sets up the closure over an element whose text is `text`; the first tick is due 1500 ms later. */
    constructor (text: string)
      ensures Valid()
      ensures roles == ROLES && State() == Initial() && textContent == text
    {
      roles := ROLES;
      roleIndex, charIndex, isDeleting, typingSpeed := 0, 0, false, TYPE_DELAY;
      textContent := text;
    }

    /** One call of `typeEffect`; returns the delay before the next call. */
    method TypeEffect() returns (delay: int)
      requires Valid()
      modifies this
      ensures Valid()
      ensures State() == Step(roles, old(State())).next
      ensures textContent == Step(roles, old(State())).shown
      ensures delay == typingSpeed
    {
      var currentRole := roles[roleIndex];
      if isDeleting {
        textContent := Substring(currentRole, 0, charIndex);
        charIndex := charIndex - 1;
      } else {
        textContent := Substring(currentRole, 0, charIndex);
        charIndex := charIndex + 1;
      }

      if !isDeleting && charIndex == |currentRole| + 1 {
        typingSpeed := FULL_PAUSE;
        isDeleting := true;
      } else if isDeleting && charIndex < 0 {
        isDeleting := false;
        roleIndex := (roleIndex + 1) % |roles|;
        typingSpeed := EMPTY_PAUSE;
      } else {
        typingSpeed := if isDeleting then DELETE_DELAY else TYPE_DELAY;
      }
      delay := typingSpeed;
    }
  }
}
