/** The two `input` handlers of the payment form (script.js:5-19): the card
    number is regrouped into runs of four separated by single spaces, and the
    expiry is reduced to digits and shown as `MM/YY`. */
module CardFormat {
  import opened JsText

  /** Length of the longest prefix of `s`, at most `max` characters long,
      that `.` matches character by character. */
  function DotRun(s: string, max: nat): (n: nat)
    ensures n <= max && n <= |s|
    ensures forall i :: 0 <= i < n ==> !IsLineTerminator(s[i])
    ensures n < max && n < |s| ==> IsLineTerminator(s[n])
  {
    if max == 0 || s == [] || IsLineTerminator(s[0]) then 0
    else 1 + DotRun(s[1..], max - 1)
  }

  /** Every match of `/.{1,4}/g` in `s`, left to right: each match is greedy,
      and a line terminator, which `.` does not match, is skipped. */
  function Matches4(s: string): (gs: seq<string>)
    ensures forall k :: 0 <= k < |gs| ==> 1 <= |gs[k]| <= 4
    decreases |s|
  {
    if s == [] then []
    else if IsLineTerminator(s[0]) then Matches4(s[1..])
    else
      var n := DotRun(s, 4);
      [s[..n]] + Matches4(s[n..])
  }

  /** `s.match(/.{1,4}/g)`: null when nothing matches. */
  function MatchGroups(s: string): Option<seq<string>> {
    var gs := Matches4(s);
    if gs == [] then None else Some(gs)
  }

  /** The card-number handler (script.js:6-7): whitespace is removed, the rest
      is matched in runs of up to four and joined with single spaces; when
      there is no match (`?.` gives undefined) or the join is empty, the
      `|| value` fallback gives the stripped value. */
  function FormatCardNumber(raw: string): string {
    var value := Remove(raw, IsWhiteSpace);
    var joined := match MatchGroups(value)
      case None => None
      case Some(gs) => Some(Join(gs, ' '));
    if joined.Some? && joined.value != "" then joined.value else value
  }

  /** The groups the formatted card number is made of. */
  function CardGroups(raw: string): seq<string> {
    Matches4(Remove(raw, IsWhiteSpace))
  }

  /** Groups of four, except the last, which has one to four characters. */
  predicate GroupedByFour(gs: seq<string>) {
    forall k :: 0 <= k < |gs| ==> 1 <= |gs[k]| <= 4 && (k < |gs| - 1 ==> |gs[k]| == 4)
  }

  /** On text without line terminators the matches tile the text. */
  lemma {:induction false} MatchesTile(v: string)
    requires NoneOf(v, IsLineTerminator)
    ensures Concat(Matches4(v)) == v
    ensures GroupedByFour(Matches4(v))
    ensures Matches4(v) == [] <==> v == []
    ensures |v| > 4 ==> Matches4(v) == [v[..4]] + Matches4(v[4..])
    ensures 0 < |v| <= 4 ==> Matches4(v) == [v]
    decreases |v|
  {
    if v != [] {
      var n := DotRun(v, 4);
      assert n == if |v| < 4 then |v| else 4;
      var rest := v[n..];
      assert NoneOf(rest, IsLineTerminator) by {
        forall i | 0 <= i < |rest| ensures !IsLineTerminator(rest[i]) {
          assert rest[i] == v[n + i];
        }
      }
      MatchesTile(rest);
      assert Matches4(v) == [v[..n]] + Matches4(rest);
      assert ([v[..n]] + Matches4(rest))[1..] == Matches4(rest);
      assert v[..n] + rest == v;
      if |v| <= 4 {
        assert rest == [];
        assert Matches4(rest) == [];
        assert v[..n] == v;
      }
    }
  }

  /** Every part of a tiling of `v` avoids what `v` avoids. */
  lemma {:induction false} TilesAvoid(gs: seq<string>, drop: char -> bool)
    requires NoneOf(Concat(gs), drop)
    ensures forall k :: 0 <= k < |gs| ==> NoneOf(gs[k], drop)
  {
    if gs != [] {
      var whole := Concat(gs);
      assert whole == gs[0] + Concat(gs[1..]);
      assert NoneOf(gs[0], drop) by {
        forall i | 0 <= i < |gs[0]| ensures !drop(gs[0][i]) {
          assert gs[0][i] == whole[i];
        }
      }
      assert NoneOf(Concat(gs[1..]), drop) by {
        forall i | 0 <= i < |Concat(gs[1..])| ensures !drop(Concat(gs[1..])[i]) {
          assert Concat(gs[1..])[i] == whole[|gs[0]| + i];
        }
      }
      TilesAvoid(gs[1..], drop);
      forall k | 0 <= k < |gs| ensures NoneOf(gs[k], drop) {
        if k > 0 {
          assert gs[k] == gs[1..][k - 1];
        }
      }
    }
  }

  lemma WhiteSpaceFreeHasNoLineTerminator(s: string)
    requires NoneOf(s, IsWhiteSpace)
    ensures NoneOf(s, IsLineTerminator)
  {
  }

  /** Shape of the formatted card number: the groups joined by single spaces,
      each group but the last exactly four characters long, the last one to
      four, none holding whitespace, and together the input without its
      whitespace; the output is empty exactly when the input is all
      whitespace. */
  lemma CardNumberShape(raw: string)
    ensures var gs := CardGroups(raw);
      && FormatCardNumber(raw) == Join(gs, ' ')
      && GroupedByFour(gs)
      && Concat(gs) == Remove(raw, IsWhiteSpace)
      && (forall k :: 0 <= k < |gs| ==> NoneOf(gs[k], IsWhiteSpace))
      && (FormatCardNumber(raw) == "" <==> Remove(raw, IsWhiteSpace) == "")
  {
    var value := Remove(raw, IsWhiteSpace);
    WhiteSpaceFreeHasNoLineTerminator(value);
    MatchesTile(value);
    TilesAvoid(Matches4(value), IsWhiteSpace);
    var gs := Matches4(value);
    if gs != [] {
      assert |gs[0]| >= 1;
      JoinStartsWithFirst(gs, ' ');
    }
  }

  lemma {:induction false} JoinStartsWithFirst(parts: seq<string>, sep: char)
    requires |parts| > 0
    ensures |Join(parts, sep)| >= |parts[0]|
    ensures Join(parts, sep)[..|parts[0]|] == parts[0]
  {
    if |parts| > 1 {
      var r := Join(parts, sep);
      assert r == parts[0] + ([sep] + Join(parts[1..], sep));
    }
  }

  /** Round trip: taking the spaces out of the formatted number gives back the
      input with all its whitespace removed; every other character, digit or
      not, survives in order. */
  lemma CardNumberRoundTrip(raw: string)
    ensures Remove(FormatCardNumber(raw), IsSpace) == Remove(raw, IsWhiteSpace)
  {
    CardNumberShape(raw);
    var gs := CardGroups(raw);
    forall k | 0 <= k < |gs| ensures NoneOf(gs[k], IsSpace) {
      assert NoneOf(gs[k], IsWhiteSpace);
    }
    RemoveJoin(gs, ' ', IsSpace);
  }

  /** Formatting an already formatted value leaves it unchanged. */
  lemma CardNumberIdempotent(raw: string)
    ensures FormatCardNumber(FormatCardNumber(raw)) == FormatCardNumber(raw)
  {
    CardNumberShape(raw);
    RemoveJoin(CardGroups(raw), ' ', IsWhiteSpace);
    assert Remove(FormatCardNumber(raw), IsWhiteSpace) == Remove(raw, IsWhiteSpace);
  }

  /** The formatted text of a whitespace-free value, one group at a time. */
  lemma GroupedText(v: string)
    requires NoneOf(v, IsWhiteSpace)
    ensures |v| <= 4 ==> Join(Matches4(v), ' ') == v
    ensures |v| > 4 ==> Join(Matches4(v), ' ') == v[..4] + " " + Join(Matches4(v[4..]), ' ')
  {
    MatchesTile(v);
    if |v| > 4 {
      var rest := v[4..];
      assert NoneOf(rest, IsLineTerminator) by {
        forall i | 0 <= i < |rest| ensures !IsLineTerminator(rest[i]) {
          assert rest[i] == v[4 + i];
        }
      }
      MatchesTile(rest);
      assert Matches4(v)[1..] == Matches4(rest);
    }
  }

  /** Layout of the formatted card number, position by position, with
      `value` the input without whitespace: a space stands exactly at every
      fifth position, the other positions hold `value` in order, and the
      length is that of `value` plus one space per complete group of four
      that is followed by more. */
  lemma {:induction false} CardNumberLayout(raw: string)
    ensures var value := Remove(raw, IsWhiteSpace); var r := FormatCardNumber(raw);
      && (value == [] ==> r == [])
      && (value != [] ==> |r| == |value| + (|value| - 1) / 4)
      && (forall i :: 0 <= i < |r| ==> (r[i] == ' ' <==> i % 5 == 4))
      && (forall i :: 0 <= i < |r| && i % 5 != 4 ==> r[i] == value[i - i / 5])
  {
    var value := Remove(raw, IsWhiteSpace);
    CardNumberShape(raw);
    LayoutOf(value);
  }

  lemma {:induction false} LayoutOf(v: string)
    requires NoneOf(v, IsWhiteSpace)
    ensures var r := Join(Matches4(v), ' ');
      && (v == [] ==> r == [])
      && (v != [] ==> |r| == |v| + (|v| - 1) / 4)
      && (forall i :: 0 <= i < |r| ==> (r[i] == ' ' <==> i % 5 == 4))
      && (forall i :: 0 <= i < |r| && i % 5 != 4 ==> r[i] == v[i - i / 5])
    decreases |v|
  {
    GroupedText(v);
    var r := Join(Matches4(v), ' ');
    if |v| <= 4 {
      assert r == v;
      forall i | 0 <= i < |r| ensures (r[i] == ' ' <==> i % 5 == 4) && (i % 5 != 4 ==> r[i] == v[i - i / 5]) {
        assert i / 5 == 0 && i % 5 == i;
      }
    } else {
      var rest := v[4..];
      assert NoneOf(rest, IsWhiteSpace) by {
        forall i | 0 <= i < |rest| ensures !IsWhiteSpace(rest[i]) {
          assert rest[i] == v[4 + i];
        }
      }
      LayoutOf(rest);
      var t := Join(Matches4(rest), ' ');
      assert r == v[..4] + " " + t;
      assert |t| == |rest| + (|rest| - 1) / 4;
      assert (|v| - 1) / 4 == (|rest| - 1) / 4 + 1;
      LayoutStep(v, t);
    }
  }

  /** One step of the layout: a first group of four, a space, and a tail
      already laid out. */
  lemma LayoutStep(v: string, t: string)
    requires |v| > 4 && NoneOf(v, IsWhiteSpace)
    requires |t| == |v| - 4 + (|v| - 5) / 4
    requires forall j :: 0 <= j < |t| ==> (t[j] == ' ' <==> j % 5 == 4)
    requires forall j :: 0 <= j < |t| && j % 5 != 4 ==> t[j] == v[4..][j - j / 5]
    ensures var r := v[..4] + " " + t;
      && (forall i :: 0 <= i < |r| ==> (r[i] == ' ' <==> i % 5 == 4))
      && (forall i :: 0 <= i < |r| && i % 5 != 4 ==> r[i] == v[i - i / 5])
  {
    var r := v[..4] + " " + t;
    forall i | 0 <= i < |r| ensures (r[i] == ' ' <==> i % 5 == 4) && (i % 5 != 4 ==> r[i] == v[i - i / 5]) {
      if i < 4 {
        assert r[i] == v[i];
      } else if i == 4 {
        assert r[i] == ' ';
      } else {
        var j := i - 5;
        assert r[i] == t[j];
        assert j % 5 == i % 5 && j / 5 == i / 5 - 1;
        if j % 5 != 4 {
          assert t[j] == v[4..][j - j / 5];
          assert v[4..][j - j / 5] == v[4 + j - j / 5];
        }
      }
    }
  }

  // ---------------------------------------------------------------------
  // Expiry

  /** The expiry handler (script.js:14-17): only digits are kept; from two
      digits on, the first two, a slash and at most the next two are shown. */
  function FormatExpiry(raw: string): string {
    var value := Remove(raw, IsNonDigit);
    if |value| >= 2 then Slice(value, 0, 2) + "/" + Slice(value, 2, 4) else value
  }

  function Min(a: int, b: int): int {
    if a < b then a else b
  }

  predicate IsDigitOrSlash(c: char) {
    IsDigit(c) || c == '/'
  }

  /** Shape of the formatted expiry, with `d` the digits of the input: fewer
      than two digits are shown as they are, without a slash; otherwise the
      output is the first two digits, a slash and the next zero to two
      digits. It is never longer than five characters and holds nothing but
      digits and that one slash. */
  lemma ExpiryShape(raw: string)
    ensures var d := Remove(raw, IsNonDigit); var r := FormatExpiry(raw);
      && (|d| < 2 ==> r == d && NoneOf(r, IsSlash))
      && (|d| >= 2 ==> r == d[..2] + "/" + d[2..Min(4, |d|)])
      && |r| <= 5
      && AllOf(r, IsDigitOrSlash)
      && (|r| == 5 <==> |d| >= 4)
  {
    var d := Remove(raw, IsNonDigit);
    var r := FormatExpiry(raw);
    assert NoneOf(d, IsNonDigit);
    if |d| >= 2 {
      assert r == d[..2] + "/" + d[2..Min(4, |d|)];
      forall i | 0 <= i < |r| ensures IsDigitOrSlash(r[i]) {
        if i < 2 {
          assert r[i] == d[i];
        } else if i > 2 {
          assert r[i] == d[i - 1];
        }
      }
    }
  }

  /** Content of the formatted expiry: without its slash it is the first four
      (or fewer) digits of the input. */
  lemma ExpiryContent(raw: string)
    ensures var d := Remove(raw, IsNonDigit);
      Remove(FormatExpiry(raw), IsSlash) == d[..Min(4, |d|)]
  {
    var d := Remove(raw, IsNonDigit);
    ExpiryShape(raw);
    var m := Min(4, |d|);
    if |d| >= 2 {
      var a, b := d[..2], d[2..m];
      assert NoneOf(a, IsSlash) && NoneOf(b, IsSlash) by {
        assert NoneOf(d, IsNonDigit);
        forall i | 0 <= i < |a| ensures !IsSlash(a[i]) { assert a[i] == d[i]; }
        forall i | 0 <= i < |b| ensures !IsSlash(b[i]) { assert b[i] == d[2 + i]; }
      }
      RemoveAppend(a + "/", b, IsSlash);
      RemoveAppend(a, "/", IsSlash);
      assert Remove("/", IsSlash) == [] by {
        assert "/"[1..] == [];
      }
      assert a + b == d[..m];
    } else {
      assert d[..m] == d;
    }
  }

  /** Reformatting the formatted expiry leaves it unchanged. */
  lemma ExpiryIdempotent(raw: string)
    ensures FormatExpiry(FormatExpiry(raw)) == FormatExpiry(raw)
  {
    var d := Remove(raw, IsNonDigit);
    var r := FormatExpiry(raw);
    ExpiryShape(raw);
    assert NoneOf(d, IsNonDigit);
    var m := Min(4, |d|);
    if |d| >= 2 {
      var a, b := d[..2], d[2..m];
      assert NoneOf(a, IsNonDigit) && NoneOf(b, IsNonDigit) by {
        forall i | 0 <= i < |a| ensures !IsNonDigit(a[i]) { assert a[i] == d[i]; }
        forall i | 0 <= i < |b| ensures !IsNonDigit(b[i]) { assert b[i] == d[2 + i]; }
      }
      RemoveAppend(a + "/", b, IsNonDigit);
      RemoveAppend(a, "/", IsNonDigit);
      assert Remove("/", IsNonDigit) == [] by {
        assert "/"[1..] == [];
      }
      assert Remove(r, IsNonDigit) == a + b;
    }
  }
}
