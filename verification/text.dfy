/** String primitives the plugin relies on: JavaScript's `String.prototype.includes`
    and `String.prototype.endsWith`, over strings modelled as `seq<char>`, plus the
    small Option wrapper used for values that may be absent. */
module Text {

  datatype Option<+T> = None | Some(value: T)

  /** `pat` occurs in `s` starting at position `i`. */
  predicate OccursAt(s: string, pat: string, i: int)
  {
    0 <= i && i + |pat| <= |s| && s[i..i + |pat|] == pat
  }

  /** `s.includes(pat)`: scans `s` from the left for an occurrence of `pat`.
      The empty pattern occurs in every string, as in JavaScript. */
  function Includes(s: string, pat: string): (r: bool)
    ensures r <==> exists i :: OccursAt(s, pat, i)
    decreases |s|
  {
    if |pat| > |s| then
      false
    else if s[..|pat|] == pat then
      assert OccursAt(s, pat, 0);
      true
    else
      var r := Includes(s[1..], pat);
      if r then
        var i :| OccursAt(s[1..], pat, i);
        assert s[1..][i..i + |pat|] == s[i + 1..i + 1 + |pat|];
        assert OccursAt(s, pat, i + 1);
        r
      else
        assert forall i | OccursAt(s, pat, i) :: OccursAt(s[1..], pat, i - 1) by {
          forall i | OccursAt(s, pat, i) ensures OccursAt(s[1..], pat, i - 1) {
            assert i != 0;
            assert s[1..][i - 1..i - 1 + |pat|] == s[i..i + |pat|];
          }
        }
        r
  }

  /** `s.endsWith(suffix)`: case-sensitive comparison of the last `|suffix|` characters.
      It holds exactly when `s` is some prefix followed by `suffix`. */
  function EndsWith(s: string, suffix: string): (r: bool)
    ensures r <==> exists pre :: s == pre + suffix
  {
    if |suffix| <= |s| && s[|s| - |suffix|..] == suffix then
      assert s == s[..|s| - |suffix|] + suffix;
      true
    else
      false
  }

  /** The suffix a path must carry to be transformed. */
  const ScriptSuffix: string := ".js"

}
