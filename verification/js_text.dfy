/** JavaScript values and string operations shared by the page script and the
    static server: optional values, settled promises, the character classes
    of regular expressions, `replace` with an empty replacement, `slice`,
    `join` and `toLowerCase`. */
module JsText {

  datatype Option<+T> = None | Some(value: T)

  /** How a promise settled. The rejection reason is never inspected by the
      code that is modelled, so it is not carried. */
  datatype Settlement<+T> = Resolved(value: T) | Rejected

  /** ECMAScript LineTerminator: the characters `.` in a regular expression
      does not match. */
  predicate IsLineTerminator(c: char) {
    c == '\n' || c == '\r' || c == '\U{2028}' || c == '\U{2029}'
  }

  /** The class `\s`: ECMAScript WhiteSpace (tab, vertical tab, form feed,
      ZWNBSP and the Unicode space separators) together with LineTerminator. */
  predicate IsWhiteSpace(c: char) {
    c == '\t' || c == '\U{000B}' || c == '\U{000C}' || c == ' ' ||
    c == '\U{00A0}' || c == '\U{FEFF}' || c == '\U{1680}' ||
    ('\U{2000}' <= c <= '\U{200A}') ||
    c == '\U{202F}' || c == '\U{205F}' || c == '\U{3000}' ||
    IsLineTerminator(c)
  }

  /** The class `\d` (ASCII digits only, as without the `u` flag). */
  predicate IsDigit(c: char) {
    '0' <= c <= '9'
  }

  predicate IsNonDigit(c: char) {
    !IsDigit(c)
  }

  predicate IsSpace(c: char) {
    c == ' '
  }

  predicate IsSlash(c: char) {
    c == '/'
  }

  predicate NoneOf(s: string, drop: char -> bool) {
    forall i :: 0 <= i < |s| ==> !drop(s[i])
  }

  predicate AllOf(s: string, keep: char -> bool) {
    forall i :: 0 <= i < |s| ==> keep(s[i])
  }

  /** `s.replace(/[class]/g, '')` for a one-character class `drop`: every
      character of the class is removed, all others keep their order. */
  function Remove(s: string, drop: char -> bool): (r: string)
    ensures NoneOf(r, drop)
    ensures |r| <= |s|
    ensures NoneOf(s, drop) ==> r == s
  {
    if s == [] then []
    else (if drop(s[0]) then [] else [s[0]]) + Remove(s[1..], drop)
  }

  lemma {:induction false} RemoveAppend(a: string, b: string, drop: char -> bool)
    ensures Remove(a + b, drop) == Remove(a, drop) + Remove(b, drop)
  {
    if a == [] {
      assert a + b == b;
    } else {
      assert (a + b)[0] == a[0];
      assert (a + b)[1..] == a[1..] + b;
      RemoveAppend(a[1..], b, drop);
    }
  }

  /** On one character, `Remove` drops it exactly when it is in the class.
      With `RemoveAppend` this fixes `Remove` on every text: the characters
      outside the class survive, in their order. */
  lemma RemoveSingle(c: char, drop: char -> bool)
    ensures Remove([c], drop) == if drop(c) then [] else [c]
  {
    assert [c][1..] == [];
  }

  /** Every character outside the class occurs in the result as often as in
      the input. */
  lemma {:induction false} RemoveCounts(s: string, drop: char -> bool, c: char)
    requires !drop(c)
    ensures multiset(Remove(s, drop))[c] == multiset(s)[c]
  {
    if s != [] {
      RemoveCounts(s[1..], drop, c);
      var head := if drop(s[0]) then [] else [s[0]];
      assert Remove(s, drop) == head + Remove(s[1..], drop);
      assert s == [s[0]] + s[1..];
      assert multiset(s) == multiset([s[0]]) + multiset(s[1..]);
      assert multiset(Remove(s, drop)) == multiset(head) + multiset(Remove(s[1..], drop));
    }
  }

  /** `s.slice(start, end)` for non-negative arguments: both ends are clamped
      to the length, and an end before the start gives the empty string. */
  function Slice(s: string, start: nat, end: nat): (r: string)
    ensures |r| <= |s|
    ensures start <= end <= |s| ==> r == s[start..end]
    ensures end <= start ==> r == ""
    ensures start <= |s| <= end ==> r == s[start..]
    ensures |s| <= start ==> r == ""
  {
    var from := if start < |s| then start else |s|;
    var to := if end < |s| then end else |s|;
    if to <= from then "" else s[from..to]
  }

  /** `Array.prototype.join(sep)` on an array of strings. */
  function Join(parts: seq<string>, sep: char): (r: string)
    ensures |parts| == 0 ==> r == ""
    ensures |parts| == 1 ==> r == parts[0]
    ensures |parts| > 0 ==> |r| == |Concat(parts)| + |parts| - 1
  {
    if |parts| == 0 then ""
    else if |parts| == 1 then parts[0]
    else parts[0] + [sep] + Join(parts[1..], sep)
  }

  /** The parts laid end to end, as `join('')` would. */
  function Concat(parts: seq<string>): string {
    if parts == [] then "" else parts[0] + Concat(parts[1..])
  }

  /** Removing the separator class from a joined string leaves the parts laid
      end to end, provided no part contains a character of the class. */
  lemma {:induction false} RemoveJoin(parts: seq<string>, sep: char, drop: char -> bool)
    requires drop(sep)
    requires forall k :: 0 <= k < |parts| ==> NoneOf(parts[k], drop)
    ensures Remove(Join(parts, sep), drop) == Concat(parts)
  {
    if |parts| == 1 {
      assert Concat(parts[1..]) == "";
      assert parts[0] + "" == parts[0];
    } else if |parts| > 1 {
      RemoveJoin(parts[1..], sep, drop);
      RemoveAppend(parts[0] + [sep], Join(parts[1..], sep), drop);
      RemoveAppend(parts[0], [sep], drop);
      assert Remove([sep], drop) == [] by {
        assert [sep][1..] == [];
      }
    }
  }

  /** `toLowerCase` on the characters whose lower-case form is ASCII: the
      letters A-Z, and U+212A KELVIN SIGN, which lowers to `k`. Every other
      character is kept; its real lower-case form is not wholly ASCII, so
      lookups among ASCII keys are unaffected. */
  function LowerChar(c: char): (l: char)
    ensures 'A' <= c <= 'Z' ==> l as int == c as int + 32
    ensures c == '\U{212A}' ==> l == 'k'
    ensures !('A' <= c <= 'Z') && c != '\U{212A}' ==> l == c
  {
    if 'A' <= c <= 'Z' then (c as int + 32) as char
    else if c == '\U{212A}' then 'k'
    else c
  }

  function ToLower(s: string): (r: string)
    ensures |r| == |s|
    ensures forall i :: 0 <= i < |s| ==> r[i] == LowerChar(s[i])
  {
    if s == [] then [] else [LowerChar(s[0])] + ToLower(s[1..])
  }
}
