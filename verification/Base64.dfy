/** What atob accepts and how many bytes it yields; the bytes themselves stay symbolic. */
module Base64 {
  import opened Wrappers
  import opened Text

  const PAD: CodeUnit := 61

  predicate IsSpace(u: CodeUnit) {
    u == 9 || u == 10 || u == 12 || u == 13 || u == 32
  }

  predicate IsAlphabet(u: CodeUnit) {
    65 <= u <= 90 || 97 <= u <= 122 || 48 <= u <= 57 || u == 43 || u == 47
  }

  function WithoutSpaces(s: Utf16): Utf16 {
    if s == [] then []
    else (if IsSpace(s[0]) then [] else [s[0]]) + WithoutSpaces(s[1..])
  }

  /** Up to two pads come off, and only when the length is a multiple of four. */
  function WithoutPads(s: Utf16): (r: Utf16)
    ensures |r| <= |s|
  {
    if |s| % 4 != 0 || s == [] || s[|s| - 1] != PAD then s
    else if s[|s| - 2] == PAD then s[..|s| - 2]
    else s[..|s| - 1]
  }

  /** atob(s).length, or None when atob throws. */
  function AtobLength(s: Utf16): Option<nat> {
    var data := WithoutPads(WithoutSpaces(s));
    if |data| % 4 == 1 || exists i | 0 <= i < |data| :: !IsAlphabet(data[i]) then None
    else Some(|data| * 3 / 4)
  }
}
