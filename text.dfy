/** String helpers shared by the backend and the task screen: the two
    languages' notions of whitespace, trimming by such a notion, and joining
    a list of strings with a separator. */
module Text {

  /** The characters Python's `str.isspace` accepts, which `str.strip()`
      removes from both ends of a string. */
  predicate IsPythonSpace(c: char) {
    || c == ' '
    || '\t' <= c <= '\r'
    || '\U{1C}' <= c <= '\U{1F}'
    || c == '\U{85}' || c == '\U{A0}' || c == '\U{1680}'
    || '\U{2000}' <= c <= '\U{200A}'
    || c == '\U{2028}' || c == '\U{2029}' || c == '\U{202F}' || c == '\U{205F}' || c == '\U{3000}'
  }

  /** The characters JavaScript's `String.prototype.trim` removes: the
      WhiteSpace and LineTerminator classes of ECMAScript. */
  predicate IsJsSpace(c: char) {
    || c == ' '
    || '\t' <= c <= '\r'
    || c == '\U{A0}' || c == '\U{1680}'
    || '\U{2000}' <= c <= '\U{200A}'
    || c == '\U{2028}' || c == '\U{2029}' || c == '\U{202F}' || c == '\U{205F}' || c == '\U{3000}'
    || c == '\U{FEFF}'
  }

  predicate AllSpace(s: string, isSpace: char -> bool) {
    forall i :: 0 <= i < |s| ==> isSpace(s[i])
  }

  lemma AllSpaceCons(c: char, s: string, isSpace: char -> bool)
    ensures AllSpace([c] + s, isSpace) <==> isSpace(c) && AllSpace(s, isSpace)
  {
    var cs := [c] + s;
    assert cs[0] == c;
    assert forall i :: 0 <= i < |s| ==> cs[i + 1] == s[i];
    assert forall i :: 1 <= i < |cs| ==> cs[i] == s[i - 1];
  }

  /** Number of whitespace characters at the front of `s`. */
  function Leading(s: string, isSpace: char -> bool): (k: nat)
    ensures k <= |s|
    ensures forall i :: 0 <= i < k ==> isSpace(s[i])
    ensures k < |s| ==> !isSpace(s[k])
  {
    if s == [] || !isSpace(s[0]) then 0 else 1 + Leading(s[1..], isSpace)
  }

  /** Number of whitespace characters at the back of `s`. */
  function Trailing(s: string, isSpace: char -> bool): (k: nat)
    ensures k <= |s|
    ensures forall i :: |s| - k <= i < |s| ==> isSpace(s[i])
    ensures k < |s| ==> !isSpace(s[|s| - 1 - k])
  {
    if s == [] || !isSpace(s[|s| - 1]) then 0 else 1 + Trailing(s[..|s| - 1], isSpace)
  }

  /** `s` with its leading and trailing whitespace removed (`strip`, `trim`).
      The result is the slice of `s` between its first and last
      non-whitespace characters, and it is empty exactly when `s` holds
      nothing but whitespace. */
  function Trim(s: string, isSpace: char -> bool): (r: string)
    ensures exists a, b :: 0 <= a <= b <= |s| && r == s[a..b]
                           && AllSpace(s[..a], isSpace) && AllSpace(s[b..], isSpace)
    ensures r != [] ==> !isSpace(r[0]) && !isSpace(r[|r| - 1])
    ensures r == [] <==> AllSpace(s, isSpace)
  {
    var a := Leading(s, isSpace);
    if a == |s| then
      assert s[..a] == s && s[a..] == [] && s[a..a] == [];
      []
    else
      var b := |s| - Trailing(s, isSpace);
      assert AllSpace(s[b..], isSpace) by {
        assert forall i :: 0 <= i < |s| - b ==> s[b..][i] == s[b + i];
      }
      s[a..b]
  }

  /** `sep.join(parts)`. */
  function Join(parts: seq<string>, sep: string): (r: string)
    ensures parts == [] ==> r == []
    ensures parts != [] ==> |parts[0]| <= |r| && r[..|parts[0]|] == parts[0]
  {
    if parts == [] then []
    else if |parts| == 1 then parts[0]
    else parts[0] + sep + Join(parts[1..], sep)
  }

  /** Putting a character in front of the first part puts it in front of
      the joined string. */
  lemma JoinPrepend(c: char, parts: seq<string>, sep: string)
    requires parts != []
    ensures Join([[c] + parts[0]] + parts[1..], sep) == [c] + Join(parts, sep)
  {
    var q := [[c] + parts[0]] + parts[1..];
    assert q[0] == [c] + parts[0] && q[1..] == parts[1..];
    if |parts| > 1 {
      assert q[0] + sep + Join(q[1..], sep) == [c] + (parts[0] + sep + Join(parts[1..], sep));
    }
  }
}
