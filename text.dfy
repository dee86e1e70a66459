/** The JavaScript string built-ins the retrieval core uses: `split(/\s+/)`,
    `Array.prototype.join` and the decimal rendering of an integer in a template
    literal. */
module Text {

  /** The characters matched by the regular-expression class `\s`: the WhiteSpace and
      LineTerminator code points of ECMA-262 (section 22.2.2.9 of the 2023 edition). */
  predicate IsSpace(c: char) {
    c == ' ' || c == '\t' || c == '\n' || c == '\U{000B}' || c == '\U{000C}' || c == '\r'
    || c == '\U{00A0}' || c == '\U{1680}' || ('\U{2000}' <= c <= '\U{200A}')
    || c == '\U{2028}' || c == '\U{2029}' || c == '\U{202F}' || c == '\U{205F}'
    || c == '\U{3000}' || c == '\U{FEFF}'
  }

  predicate SpaceFree(w: string) {
    forall i :: 0 <= i < |w| ==> !IsSpace(w[i])
  }

  /** The position of the first whitespace character of s at or after i, or |s|. */
  function FirstSpace(s: string, i: nat): (j: nat)
    requires i <= |s|
    ensures i <= j <= |s|
    ensures forall k :: i <= k < j ==> !IsSpace(s[k])
    ensures j < |s| ==> IsSpace(s[j])
    decreases |s| - i
  {
    if i == |s| || IsSpace(s[i]) then i else FirstSpace(s, i + 1)
  }

  /** The position just past the run of whitespace that starts at i. */
  function SpaceRunEnd(s: string, i: nat): (j: nat)
    requires i <= |s|
    ensures i <= j <= |s|
    ensures forall k :: i <= k < j ==> IsSpace(s[k])
    ensures j < |s| ==> !IsSpace(s[j])
    decreases |s| - i
  {
    if i == |s| || !IsSpace(s[i]) then i else SpaceRunEnd(s, i + 1)
  }

  /** `s.split(/\s+/)`: the pieces of s between maximal runs of whitespace. There is
      always at least one piece ("" splits into [""]); a leading or trailing run yields
      an empty first or last piece, and no other piece is empty. */
  function Split(s: string): (words: seq<string>)
    ensures |words| >= 1
    ensures forall k :: 0 <= k < |words| ==> SpaceFree(words[k])
    ensures forall k :: 0 < k < |words| - 1 ==> words[k] != []
    ensures |s| > 0 && !IsSpace(s[0]) ==> words[0] != []
    ensures |s| == 0 || IsSpace(s[0]) ==> words[0] == []
    decreases |s|
  {
    var i := FirstSpace(s, 0);
    if i == |s| then [s]
    else
      var j := SpaceRunEnd(s, i);
      [s[..i]] + Split(s[j..])
  }

  /** The last piece is empty exactly when the text is empty or ends with whitespace. */
  lemma {:induction false} SplitLastEmpty(s: string)
    ensures var words := Split(s);
      (|s| == 0 || IsSpace(s[|s| - 1])) <==> words[|words| - 1] == []
    decreases |s|
  {
    var words := Split(s);
    var i := FirstSpace(s, 0);
    if i < |s| {
      var j := SpaceRunEnd(s, i);
      var t := s[j..];
      SplitLastEmpty(t);
      assert words == [s[..i]] + Split(t);
      if |t| > 0 {
        assert t[|t| - 1] == s[|s| - 1];
      } else {
        assert IsSpace(s[j - 1]);
      }
    }
  }

  /** s with every maximal run of whitespace replaced by a single space: a whitespace
      character is dropped when whitespace follows it, and otherwise becomes " ". */
  function Squeeze(s: string): string
    decreases |s|
  {
    if |s| == 0 then ""
    else if !IsSpace(s[0]) then [s[0]] + Squeeze(s[1..])
    else if |s| > 1 && IsSpace(s[1]) then Squeeze(s[1..])
    else " " + Squeeze(s[1..])
  }

  /** Squeezing keeps the space-free stretch that starts at i unchanged. */
  lemma {:induction false} SqueezeWord(s: string, i: nat)
    requires i <= |s|
    ensures Squeeze(s[i..]) == s[i..FirstSpace(s, i)] + Squeeze(s[FirstSpace(s, i)..])
    decreases |s| - i
  {
    if i < |s| && !IsSpace(s[i]) {
      assert s[i..][1..] == s[i + 1..];
      SqueezeWord(s, i + 1);
      assert s[i..FirstSpace(s, i)] == [s[i]] + s[i + 1..FirstSpace(s, i)];
    }
  }

  /** Squeezing turns the whitespace run that starts at i into one space. */
  lemma {:induction false} SqueezeRun(s: string, i: nat)
    requires i < |s| && IsSpace(s[i])
    ensures Squeeze(s[i..]) == " " + Squeeze(s[SpaceRunEnd(s, i)..])
    decreases |s| - i
  {
    assert s[i..][1..] == s[i + 1..];
    if i + 1 < |s| && IsSpace(s[i + 1]) {
      SqueezeRun(s, i + 1);
    }
  }

  /** Squeezing a text whose first whitespace run is s[i..j] keeps the piece before
      the run and turns the run into one space. */
  lemma SqueezeFirstRun(s: string, i: nat, j: nat)
    requires i == FirstSpace(s, 0) && i < |s| && j == SpaceRunEnd(s, i)
    ensures Squeeze(s) == s[..i] + " " + Squeeze(s[j..])
  {
    var word, rest := s[..i], Squeeze(s[j..]);
    assert Squeeze(s) == word + Squeeze(s[i..]) by {
      assert s[0..] == s && s[0..i] == word;
      SqueezeWord(s, 0);
    }
    assert Squeeze(s[i..]) == " " + rest by {
      SqueezeRun(s, i);
    }
    assert word + (" " + rest) == word + " " + rest;
  }

  /** Joining the pieces of s with single spaces gives s with its whitespace runs
      squeezed: the pieces are exactly the text between the runs. */
  lemma {:induction false} SplitSqueeze(s: string)
    ensures JoinWith(Split(s), " ") == Squeeze(s)
    decreases |s|
  {
    var i := FirstSpace(s, 0);
    if i == |s| {
      SqueezeWord(s, 0);
      assert s[0..] == s && s[0..i] == s;
    } else {
      var j := SpaceRunEnd(s, i);
      var rest := Split(s[j..]);
      assert Split(s) == [s[..i]] + rest;
      assert ([s[..i]] + rest)[1..] == rest;
      SplitSqueeze(s[j..]);
      SqueezeFirstRun(s, i, j);
    }
  }

  /** `xs.join(sep)`. */
  function JoinWith(xs: seq<string>, sep: string): (r: string)
    ensures |xs| == 0 ==> r == ""
    ensures |xs| == 1 ==> r == xs[0]
    ensures |xs| > 0 ==> |xs[0]| <= |r| && r[..|xs[0]|] == xs[0]
  {
    if |xs| == 0 then ""
    else if |xs| == 1 then xs[0]
    else xs[0] + sep + JoinWith(xs[1..], sep)
  }

  /** Joining one more piece appends the separator and that piece. */
  lemma {:induction false} JoinWithSnoc(xs: seq<string>, y: string, sep: string)
    requires |xs| > 0
    ensures JoinWith(xs + [y], sep) == JoinWith(xs, sep) + sep + y
  {
    if |xs| > 1 {
      assert (xs + [y])[1..] == xs[1..] + [y];
      JoinWithSnoc(xs[1..], y, sep);
    }
  }

  lemma SplitSpaceFree(w: string)
    requires SpaceFree(w)
    ensures Split(w) == [w]
  {
    assert FirstSpace(w, 0) == |w|;
  }

  /** A space-free w followed by one space and a text that does not open with
      whitespace splits into w and the pieces of that text. */
  lemma SplitCons(w: string, t: string)
    requires SpaceFree(w)
    requires |t| == 0 || !IsSpace(t[0])
    ensures Split(w + " " + t) == [w] + Split(t)
  {
    var s := w + " " + t;
    assert s[|w|] == ' ';
    assert forall k :: 0 <= k < |w| ==> s[k] == w[k];
    var i := FirstSpace(s, 0);
    assert i == |w|;
    var j := SpaceRunEnd(s, i);
    assert j == |w| + 1 by {
      if |t| > 0 { assert s[|w| + 1] == t[0]; }
    }
    assert s[..i] == w;
    assert s[j..] == t;
  }

  /** Splitting undoes joining with single spaces, for any sequence of pieces that
      `split` could have produced. */
  lemma {:induction false} SplitJoin(ws: seq<string>)
    requires |ws| >= 1
    requires forall k :: 0 <= k < |ws| ==> SpaceFree(ws[k])
    requires forall k :: 0 < k < |ws| - 1 ==> ws[k] != []
    ensures Split(JoinWith(ws, " ")) == ws
  {
    if |ws| == 1 {
      SplitSpaceFree(ws[0]);
    } else {
      var t := JoinWith(ws[1..], " ");
      assert |t| == 0 || !IsSpace(t[0]) by {
        if ws[1] != [] {
          assert t[..|ws[1]|] == ws[1];
          assert t[0] == ws[1][0];
        } else {
          assert |ws| == 2;
        }
      }
      SplitCons(ws[0], t);
      SplitJoin(ws[1..]);
      assert ws == [ws[0]] + ws[1..];
    }
  }

  function DigitChar(d: nat): char
    requires d < 10
  {
    (48 + d) as char
  }

  predicate AllDigits(s: string) {
    forall i :: 0 <= i < |s| ==> '0' <= s[i] <= '9'
  }

  /** The decimal numeral of n, as a template literal renders a non-negative integer. */
  function NatToString(n: nat): (s: string)
    ensures |s| >= 1 && AllDigits(s)
    ensures s[0] == '0' ==> n == 0
    decreases n
  {
    if n < 10 then [DigitChar(n)] else NatToString(n / 10) + [DigitChar(n % 10)]
  }

  /** The value of a decimal numeral. */
  function ParseDecimal(s: string): nat
    requires AllDigits(s)
  {
    if |s| == 0 then 0
    else ParseDecimal(s[..|s| - 1]) * 10 + (s[|s| - 1] as int - 48)
  }

  /** The numeral NatToString produces reads back as the same number. */
  lemma {:induction false} ParseNatToString(n: nat)
    ensures ParseDecimal(NatToString(n)) == n
    decreases n
  {
    var s := NatToString(n);
    if n >= 10 {
      ParseNatToString(n / 10);
      assert s[..|s| - 1] == NatToString(n / 10);
    }
  }
}
