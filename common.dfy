/** Values shared by the pending-matches card and the match list: an optional
    value (JavaScript's `undefined`), the match tiers with their wire names, and
    the few string operations the two components perform on those names. */
module Common {

  datatype Option<T> = None | Some(value: T)

  /** The tier of a pair. `Unset` is the empty string the client leaves in
      `matchType` when the shared-dislike count exceeds ten. */
  datatype Tier = NoLongerAMatch | Good | Great | Perfect | Unset {

    /** The string stored in a match's `matchType` field. */
    function Name(): string
    {
      match this
      case NoLongerAMatch => "no longer a match"
      case Good => "good"
      case Great => "great"
      case Perfect => "perfect"
      case Unset => ""
    }

    /** Strength of a tier: perfect > great > good > no longer a match. */
    function Rank(): nat
    {
      match this
      case Perfect => 3
      case Great => 2
      case Good => 1
      case NoLongerAMatch => 0
      case Unset => 0
    }
  }

  /** The wire names of the tiers are pairwise distinct. */
  lemma NameInjective(t: Tier, u: Tier)
    ensures t.Name() == u.Name() <==> t == u
  {
  }

  /** `toUpperCase` on one character; only the ASCII letters change. */
  function UpperChar(c: char): char
  {
    if 'a' <= c <= 'z' then (c as int - 'a' as int + 'A' as int) as char else c
  }

  /** `toUpperCase` on a string, character by character. */
  function Upper(s: string): (r: string)
    ensures |r| == |s|
    ensures forall i :: 0 <= i < |s| ==> r[i] == UpperChar(s[i])
  {
    if s == [] then [] else [UpperChar(s[0])] + Upper(s[1..])
  }

  /** `s[0].toUpperCase() + s.substring(1)`; `s[0]` is undefined on the empty
      string and calling `toUpperCase` on it throws, so `s` must not be empty. */
  function Capitalised(s: string): (r: string)
    requires |s| > 0
    ensures |r| == |s| && r[0] == UpperChar(s[0]) && r[1..] == s[1..]
  {
    [UpperChar(s[0])] + s[1..]
  }

  /** The label shown for a tier name: the name capitalised, then " Match!". */
  function MatchLabel(matchType: string): (r: string)
    requires |matchType| > 0
    ensures |r| == |matchType| + 7 && r[0] == UpperChar(matchType[0])
    ensures r[1..|matchType|] == matchType[1..] && r[|matchType|..] == " Match!"
  {
    Capitalised(matchType) + " Match!"
  }

  /** The colour class of a label; None for every other label. */
  function LabelColour(description: Option<string>): (r: Option<string>)
    ensures r == Some("yellow") <==> description == Some("Perfect Match!")
    ensures r == Some("green") <==> description == Some("Great Match!")
    ensures r == Some("danger") <==> description == Some("Good Match!")
    ensures r.None? <==> description !in {Some("Perfect Match!"), Some("Great Match!"), Some("Good Match!")}
  {
    if description == Some("Perfect Match!") then Some("yellow")
    else if description == Some("Great Match!") then Some("green")
    else if description == Some("Good Match!") then Some("danger")
    else None
  }

  /** How `String.prototype.slice` resolves a position: a negative one counts
      from the end, and the result is clamped to `0..len`. */
  function SliceIndex(len: nat, k: int): (r: nat)
    ensures r <= len
    ensures 0 <= k <= len ==> r == k
    ensures 0 - len as int <= k < 0 ==> r as int == len as int + k
  {
    if k < 0 then (if len + k < 0 then 0 else len + k)
    else if k > len then len
    else k
  }

  /** `s.slice(start, end)`: empty when the resolved start is not before the
      resolved end. */
  function Slice(s: string, start: int, end: int): (r: string)
    ensures |r| <= |s|
  {
    var b := SliceIndex(|s|, start);
    var e := SliceIndex(|s|, end);
    if b < e then s[b..e] else []
  }

  /** `s.slice(start)`: from the resolved start to the end. */
  function SliceFrom(s: string, start: int): (r: string)
    ensures r == s[SliceIndex(|s|, start)..]
  {
    Slice(s, start, |s|)
  }
}
