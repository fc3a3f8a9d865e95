/**
 * The few browser built-ins the page script relies on, restricted to the
 * arguments the script passes: `String.prototype.substring` with integer
 * arguments, `String.prototype.includes`, and `classList.toggle(token, force)`
 * on a set of class names. A class list's `add` and `remove` are set union
 * and set difference where they are used.
 */
module Dom {

  /** The class that marks the active navigation link and the active carousel dot. */
  const ACTIVE := "active"

  /** `k` forced into the closed interval [lo, hi]. */
  function Clamp(k: int, lo: int, hi: int): (r: int)
    requires lo <= hi
    ensures lo <= r <= hi
    ensures lo <= k <= hi ==> r == k
    ensures k < lo ==> r == lo
    ensures hi < k ==> r == hi
  {
    if k < lo then lo else if hi < k then hi else k
  }

  /**
   * `s.substring(start, end)` for integer arguments: each argument is clamped
   * to [0, |s|] and the two are swapped when the first is the larger.
   */
  function Substring(s: string, start: int, end: int): (r: string)
    // the result is a piece of `s`: it occurs in `s` at the smaller of the two clamped ends
    ensures OccursAt(s, r, if Clamp(start, 0, |s|) <= Clamp(end, 0, |s|) then Clamp(start, 0, |s|) else Clamp(end, 0, |s|))
    // and it is as long as the distance between the two clamped ends
    ensures |r| == if Clamp(start, 0, |s|) <= Clamp(end, 0, |s|) then Clamp(end, 0, |s|) - Clamp(start, 0, |s|)
                   else Clamp(start, 0, |s|) - Clamp(end, 0, |s|)
  {
    var a := Clamp(start, 0, |s|);
    var b := Clamp(end, 0, |s|);
    if a <= b then s[a..b] else s[b..a]
  }

  /** With a start of 0 the result is the prefix of `s` of clamped length. */
  lemma SubstringFromZero(s: string, end: int)
    ensures Substring(s, 0, end) == s[..Clamp(end, 0, |s|)]
    ensures Substring(s, 0, end) <= s
    ensures end <= 0 ==> Substring(s, 0, end) == ""
    ensures |s| <= end ==> Substring(s, 0, end) == s
  {
  }

  /** The order of the two arguments does not matter. */
  lemma SubstringSwap(s: string, start: int, end: int)
    ensures Substring(s, start, end) == Substring(s, end, start)
  {
  }

  /** `s.includes(t)`: `t` occurs in `s` at some position, searching from the left. */
  function Includes(s: string, t: string): (r: bool)
    ensures r ==> |t| <= |s|
    ensures t <= s ==> r
    decreases |s|
  {
    |t| <= |s| && (s[..|t|] == t || Includes(s[1..], t))
  }

  /** Every string includes the empty string. */
  lemma IncludesEmpty(s: string)
    ensures Includes(s, "")
  {
  }

  /** `t` occurs in `s` starting at position `i`. */
  predicate OccursAt(s: string, t: string, i: int)
  {
    0 <= i <= |s| - |t| && s[i..i + |t|] == t
  }

  /** The left-to-right search agrees with the declarative reading: `t` occurs somewhere in `s`. */
  lemma {:induction false} IncludesIff(s: string, t: string)
    ensures Includes(s, t) <==> exists i :: OccursAt(s, t, i)
    decreases |s|
  {
    if |t| <= |s| {
      if s[..|t|] == t {
        assert OccursAt(s, t, 0);
      } else {
        IncludesIff(s[1..], t);
        if Includes(s[1..], t) {
          var i :| OccursAt(s[1..], t, i);
          assert s[1..][i..i + |t|] == s[i + 1..i + 1 + |t|];
          assert OccursAt(s, t, i + 1);
        }
        if exists i :: OccursAt(s, t, i) {
          var i :| OccursAt(s, t, i);
          assert i != 0;
          assert s[1..][i - 1..i - 1 + |t|] == s[i..i + |t|];
          assert OccursAt(s[1..], t, i - 1);
        }
      }
    } else {
      forall i ensures !OccursAt(s, t, i) {
      }
    }
  }

  /** `classList.toggle(token, force)`: adds `token` when `force` holds, removes it otherwise. */
  function ToggleClass(classes: set<string>, token: string, force: bool): (r: set<string>)
    ensures token in r <==> force
    ensures r - {token} == classes - {token}
  {
    if force then classes + {token} else classes - {token}
  }
}
