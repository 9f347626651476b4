/**
 * The Python `str` methods the normaliser chains: `strip()` (Python's
 * whitespace), `strip(chars)` and `replace` of one character by another.
 */
module PyStrings {

  /** Python's `str.isspace()` for one character: what `strip()` removes. */
  predicate IsSpace(c: char) {
    || '\t' <= c <= '\r'
    || '\U{001C}' <= c <= ' '
    || c == '\U{0085}' || c == '\U{00A0}' || c == '\U{1680}'
    || '\U{2000}' <= c <= '\U{200A}'
    || c == '\U{2028}' || c == '\U{2029}' || c == '\U{202F}' || c == '\U{205F}' || c == '\U{3000}'
  }

  /** The characters a form of `str.strip` removes from both ends. */
  datatype CharClass = Spaces | AnyOf(chars: set<char>)

  /** `strip()` drops whitespace; `strip(chars)` drops the characters of `chars`. */
  predicate Drops(cls: CharClass, c: char) {
    match cls
    case Spaces => IsSpace(c)
    case AnyOf(chars) => c in chars
  }

  /** The first position at or after `i` whose character is not dropped (or `|s|`). */
  function FirstKept(s: string, cls: CharClass, i: nat): (k: nat)
    requires i <= |s|
    ensures i <= k <= |s|
    ensures forall j :: i <= j < k ==> Drops(cls, s[j])
    ensures k == |s| || !Drops(cls, s[k])
    decreases |s| - i
  {
    if i < |s| && Drops(cls, s[i]) then FirstKept(s, cls, i + 1) else i
  }

  /** One past the last position below `hi`, and not below `lo`, whose character is not dropped. */
  function LastKept(s: string, cls: CharClass, lo: nat, hi: nat): (k: nat)
    requires lo <= hi <= |s|
    ensures lo <= k <= hi
    ensures forall j :: k <= j < hi ==> Drops(cls, s[j])
    ensures k == lo || !Drops(cls, s[k - 1])
    decreases hi
  {
    if hi > lo && Drops(cls, s[hi - 1]) then LastKept(s, cls, lo, hi - 1) else hi
  }

  /**
   * `r` is what is left of `s` once the first `lo` characters and everything
   * after `lo + |r|` are cut off, and every character cut off is dropped.
   */
  predicate TrimmedAt(s: string, cls: CharClass, lo: int, r: string) {
    && 0 <= lo <= |s| - |r|
    && r == s[lo..lo + |r|]
    && (forall i :: 0 <= i < lo ==> Drops(cls, s[i]))
    && (forall i :: lo + |r| <= i < |s| ==> Drops(cls, s[i]))
  }

  /**
   * The part of `s` left between the longest prefix and the longest suffix
   * of dropped characters: the scan both forms of `str.strip` perform.
   */
  function StripBy(s: string, cls: CharClass): (r: string)
    ensures exists lo :: TrimmedAt(s, cls, lo, r)
    ensures r == [] || (!Drops(cls, r[0]) && !Drops(cls, r[|r| - 1]))
    ensures r == [] <==> forall i :: 0 <= i < |s| ==> Drops(cls, s[i])
    ensures forall c :: c in r ==> c in s
  {
    var lo := FirstKept(s, cls, 0);
    var hi := LastKept(s, cls, lo, |s|);
    assert TrimmedAt(s, cls, lo, s[lo..hi]);
    s[lo..hi]
  }

  /** The ends `StripBy` finds are determined by which characters are dropped. */
  lemma StripByIs(s: string, cls: CharClass, lo: int, hi: int)
    requires 0 <= lo <= hi <= |s|
    requires forall i :: 0 <= i < lo ==> Drops(cls, s[i])
    requires forall i :: hi <= i < |s| ==> Drops(cls, s[i])
    requires lo < hi ==> !Drops(cls, s[lo]) && !Drops(cls, s[hi - 1])
    ensures StripBy(s, cls) == s[lo..hi]
  {
  }

  /** `s.strip()`. */
  function Strip(s: string): (r: string)
    ensures exists lo :: TrimmedAt(s, Spaces, lo, r)
    ensures r == [] || (!IsSpace(r[0]) && !IsSpace(r[|r| - 1]))
    ensures forall c :: c in r ==> c in s
  {
    StripBy(s, Spaces)
  }

  /** `s.strip(chars)`. */
  function StripChars(s: string, chars: set<char>): (r: string)
    ensures exists lo :: TrimmedAt(s, AnyOf(chars), lo, r)
    ensures r == [] || (r[0] !in chars && r[|r| - 1] !in chars)
    ensures forall c :: c in r ==> c in s
  {
    StripBy(s, AnyOf(chars))
  }

  /** `s.replace(a, b)` for single characters `a` and `b`. */
  function ReplaceChar(s: string, a: char, b: char): (r: string)
    ensures |r| == |s|
    ensures forall i :: 0 <= i < |s| ==> r[i] == if s[i] == a then b else s[i]
    decreases |s|
  {
    if |s| == 0 then [] else [if s[0] == a then b else s[0]] + ReplaceChar(s[1..], a, b)
  }
}
