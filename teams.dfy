/** The team-list edit used by `removeTeam` (src/App.jsx lines 30-32). */
module Teams {

  /** `s.filter((_, i) => i !== idx)`: every element except the one at
      position `idx`, in their original order; an index outside the list
      removes nothing. */
  function Without<T>(s: seq<T>, idx: int): (r: seq<T>)
    ensures 0 <= idx < |s| ==> r == s[..idx] + s[idx + 1..]
    ensures !(0 <= idx < |s|) ==> r == s
  {
    if s == [] then []
    else (if idx == 0 then [] else [s[0]]) + Without(s[1..], idx - 1)
  }
}
