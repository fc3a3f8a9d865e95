/**
 * The mobile navigation overlay: whether the overlay has `open`, and
 * whether the menu icon's glyph has `fa-bars` and `fa-times`.
 */
module MobileMenu {

  datatype Menu = Menu(open: bool, faBars: bool, faTimes: bool)

  datatype Event = IconClick | LinkClick

  /** Exactly one glyph is shown, and the overlay is open iff it is the "times" glyph. */
  predicate Consistent(m: Menu)
  {
    m.faBars != m.faTimes && (m.open <==> m.faTimes)
  }

  /** The state a link click forces: closed, bars glyph. */
  function Closed(): (m: Menu)
    ensures Consistent(m) && !m.open
  {
    Menu(false, true, false)
  }

  /** A click on the menu icon toggles all three classes. */
  function Toggle(m: Menu): (r: Menu)
    ensures r.open == !m.open && r.faBars == !m.faBars && r.faTimes == !m.faTimes
    ensures Consistent(m) <==> Consistent(r)
  {
    Menu(!m.open, !m.faBars, !m.faTimes)
  }

  /** A click on a link in the overlay closes it and shows the bars glyph, whatever the state. */
  function Close(m: Menu): (r: Menu)
    ensures r == Closed()
    ensures Consistent(r)
  {
    Menu(false, true, false)
  }

  /** Clicking the icon twice restores the state. */
  lemma ToggleTwice(m: Menu)
    ensures Toggle(Toggle(m)) == m
  {
  }

  /** Closing twice is closing once. */
  lemma CloseIdempotent(m: Menu)
    ensures Close(Close(m)) == Close(m)
  {
  }

  /** The state after a sequence of clicks, in order. */
  function Apply(m: Menu, events: seq<Event>): (r: Menu)
    ensures Consistent(m) ==> Consistent(r)
    decreases |events|
  {
    if |events| == 0 then m
    else Apply(if events[0] == IconClick then Toggle(m) else Close(m), events[1..])
  }

  /**
   * The icon clicks after the last link click decide the state: an even
   * number leaves it closed with bars, an odd number open with times.
   */
  lemma {:induction false} ApplyParity(events: seq<Event>, m: Menu)
    ensures var r := Apply(m, events);
            r.open <==> (if LinkClick in events then OddClicks(After(events)) else OddClicks(events) != m.open)
    decreases |events|
  {
    if |events| > 0 {
      var next := if events[0] == IconClick then Toggle(m) else Close(m);
      ApplyParity(events[1..], next);
      assert events == [events[0]] + events[1..];
      if LinkClick in events[1..] {
        assert After(events) == After(events[1..]);
      } else if events[0] == LinkClick {
        assert After(events) == events[1..];
      }
    }
  }

  /** The clicks after the last link click. */
  function After(events: seq<Event>): (tail: seq<Event>)
    ensures LinkClick !in tail
    ensures |tail| <= |events|
    ensures LinkClick !in events ==> tail == events
    ensures LinkClick in events ==>
              exists j :: 0 <= j < |events| && events[j] == LinkClick && tail == events[j + 1..]
    decreases |events|
  {
    if |events| == 0 then []
    else if LinkClick in events[1..] then After(events[1..])
    else if events[0] == LinkClick then events[1..]
    else events
  }

  /** Whether a sequence has an odd number of icon clicks. */
  function OddClicks(events: seq<Event>): (odd: bool)
    ensures events == [] ==> !odd
    ensures IconClick !in events ==> !odd
    decreases |events|
  {
    if |events| == 0 then false
    else (events[0] == IconClick) != OddClicks(events[1..])
  }

  /** The overlay's and the glyph's class lists. */
  class MobileNav {
    var open: bool
    var faBars: bool
    var faTimes: bool

    function State(): (m: Menu)
      reads this
    {
      Menu(open, faBars, faTimes)
    }

    constructor (m: Menu)
      ensures State() == m
    {
      open, faBars, faTimes := m.open, m.faBars, m.faTimes;
    }

    /** The menu icon's click handler. */
    method IconClicked()
      modifies this
      ensures State() == Toggle(old(State()))
    {
      open := !open;
      faBars := !faBars;
      faTimes := !faTimes;
    }

    /** A mobile navigation link's click handler. */
    method LinkClicked()
      modifies this
      ensures State() == Close(old(State()))
    {
      open := false;
      faBars := true;
      faTimes := false;
    }
  }
}
