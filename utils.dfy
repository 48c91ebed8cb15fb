/** String helpers (Utils.java). Case mapping is modelled for the ASCII letters. */
module Utils {
  import opened Outcomes

  predicate IsLower(c: char) { 'a' <= c <= 'z' }

  predicate IsUpper(c: char) { 'A' <= c <= 'Z' }

  /** `Character.toUpperCase` on ASCII: lower-case letters map to their capitals, nothing else moves. */
  function ToUpper(c: char): (u: char)
    ensures !IsLower(u)
    ensures IsLower(c) ==> IsUpper(u) && ToLower(u) == c
    ensures !IsLower(c) ==> u == c
  {
    if IsLower(c) then (c as int - 32) as char else c
  }

  /** `Character.toLowerCase` on ASCII: capitals map to their lower-case letters, nothing else moves. */
  function ToLower(c: char): (l: char)
    ensures !IsUpper(l)
    ensures IsUpper(c) ==> IsLower(l)
    ensures !IsUpper(c) ==> l == c
  {
    if IsUpper(c) then (c as int + 32) as char else c
  }

  /** `s.toLowerCase()`. */
  function LowerAll(s: string): (r: string)
    ensures |r| == |s|
    ensures forall k :: 0 <= k < |s| ==> r[k] == ToLower(s[k])
  {
    if s == [] then [] else [ToLower(s[0])] + LowerAll(s[1..])
  }

  /** `toTitle(s)`: the first character in upper case, the rest in lower case; `substring(0, 1)`
      of the empty string throws. */
  function ToTitle(s: string): (r: Result<string>)
    ensures r.Err? <==> s == []
    ensures r.Err? ==> r.error == StringIndexOutOfBoundsException
    ensures r.Ok? ==> |r.value| == |s| && r.value[0] == ToUpper(s[0])
    ensures r.Ok? ==> forall k :: 1 <= k < |s| ==> r.value[k] == ToLower(s[k])
  {
    if s == [] then Err(StringIndexOutOfBoundsException)
    else Ok([ToUpper(s[0])] + LowerAll(s[1..]))
  }

  /** A title-cased string is its own title case. */
  lemma ToTitleIdempotent(s: string)
    requires s != []
    ensures ToTitle(s).Ok? && ToTitle(ToTitle(s).value) == ToTitle(s)
  {
    var t := ToTitle(s).value;
    var u := ToTitle(t).value;
    assert |u| == |t|;
    forall k | 0 <= k < |t|
      ensures u[k] == t[k]
    {
      if k == 0 {
        assert ToUpper(ToUpper(s[0])) == ToUpper(s[0]);
      } else {
        assert ToLower(ToLower(s[k])) == ToLower(s[k]);
      }
    }
    assert u == t;
  }
}
