/** Shared vocabulary of the model: optional values, frame cells, Python's string
    primitives (`strip`, `split`, `join`, `in`), code-point string order and
    decimal digit strings. */
module Prelude {

  datatype Option<T> = None | Some(value: T)

  /** A cell of a frame read from the spreadsheet backend. In frames read
      through `safe_read_gsheet` an empty cell has been replaced by pd.NA
      (`Blank`) and every other cell is text. Frames built from the raw text
      of a sheet (the rates and field-service sheets) hold only text, an empty
      cell being ""; there `Blank` stands for the NaN that `pd.concat` puts in
      a column one sheet lacks. */
  datatype Cell = Blank | Text(s: string)

  /** `astype(str)` applied to a cell of a `safe_read_gsheet` frame. */
  function CellStr(c: Cell): string
  {
    match c
    case Blank => "<NA>"
    case Text(s) => s
  }

  /** A loosely typed Python argument: None or NaN, an int or float, or a str. */
  datatype Scalar = Missing | Num(v: real) | Str(s: string)

  // ---------------------------------------------------------------------------
  // Whitespace, strip and split
  // ---------------------------------------------------------------------------

  /** `str.isspace` on one character. */
  predicate IsSpace(c: char)
  {
    c == ' ' || ('\t' <= c <= '\r') || ('\U{1C}' <= c <= '\U{1F}')
    || c == '\U{85}' || c == '\U{A0}' || c == '\U{1680}'
    || ('\U{2000}' <= c <= '\U{200A}') || c == '\U{2028}' || c == '\U{2029}'
    || c == '\U{202F}' || c == '\U{205F}' || c == '\U{3000}'
  }

  predicate NoSpace(s: string)
  {
    forall i :: 0 <= i < |s| ==> !IsSpace(s[i])
  }

  function TrimLeft(s: string): (r: string)
    ensures |r| <= |s| && r == s[|s| - |r|..]
    ensures r == [] || !IsSpace(r[0])
    ensures forall i :: 0 <= i < |s| - |r| ==> IsSpace(s[i])
  {
    if s != [] && IsSpace(s[0]) then TrimLeft(s[1..]) else s
  }

  function TrimRight(s: string): (r: string)
    ensures |r| <= |s| && r == s[..|r|]
    ensures r == [] || !IsSpace(r[|r| - 1])
    ensures forall i :: |r| <= i < |s| ==> IsSpace(s[i])
  {
    if s != [] && IsSpace(s[|s| - 1]) then TrimRight(s[..|s| - 1]) else s
  }

  /** `str.strip()`: the text between the leading and the trailing whitespace. */
  function Strip(s: string): (r: string)
    ensures |r| <= |s|
    ensures r == [] || (!IsSpace(r[0]) && !IsSpace(r[|r| - 1]))
    ensures Contains(s, r)
  {
    var l := TrimLeft(s);
    var r := TrimRight(l);
    assert r == s[|s| - |l|..|s| - |l| + |r|];
    ContainsAt(s, r, |s| - |l|);
    r
  }

  /** Text with no surrounding whitespace is its own strip. */
  lemma StripClean(s: string)
    requires s == [] || (!IsSpace(s[0]) && !IsSpace(s[|s| - 1]))
    ensures Strip(s) == s
  {
  }

  /** A nonempty text whose first and last characters are not whitespace. */
  predicate CleanEnds(s: string)
  {
    s != [] && !IsSpace(s[0]) && !IsSpace(s[|s| - 1])
  }

  /** The nonempty case of `StripClean`. */
  lemma StripCleanEnds(s: string)
    requires CleanEnds(s)
    ensures Strip(s) == s
  {
    StripClean(s);
  }

  /** Strip is idempotent. */
  lemma StripIdempotent(s: string)
    ensures Strip(Strip(s)) == Strip(s)
  {
    StripClean(Strip(s));
  }

  /** Text of which every character is whitespace strips to "". */
  lemma {:induction false} StripAllSpace(s: string)
    requires forall i :: 0 <= i < |s| ==> IsSpace(s[i])
    ensures Strip(s) == []
  {
    if s != [] {
      assert IsSpace(s[0]);
      assert TrimLeft(s) == TrimLeft(s[1..]);
      StripAllSpace(s[1..]);
    }
  }

  lemma {:induction false} TrimLeftSpaces(l: string, s: string)
    requires forall i :: 0 <= i < |l| ==> IsSpace(l[i])
    requires s == [] || !IsSpace(s[0])
    ensures TrimLeft(l + s) == s
  {
    if l != [] {
      assert (l + s)[1..] == l[1..] + s;
      TrimLeftSpaces(l[1..], s);
    } else {
      assert l + s == s;
    }
  }

  lemma {:induction false} TrimRightSpaces(s: string, r: string)
    requires forall i :: 0 <= i < |r| ==> IsSpace(r[i])
    requires s == [] || !IsSpace(s[|s| - 1])
    ensures TrimRight(s + r) == s
  {
    if r != [] {
      assert (s + r)[..|s + r| - 1] == s + r[..|r| - 1];
      TrimRightSpaces(s, r[..|r| - 1]);
    } else {
      assert s + r == s;
    }
  }

  /** Surrounding whitespace is what strip removes: text with clean ends
      between two runs of whitespace strips to itself. */
  lemma StripPadded(l: string, s: string, r: string)
    requires forall i :: 0 <= i < |l| ==> IsSpace(l[i])
    requires forall i :: 0 <= i < |r| ==> IsSpace(r[i])
    requires s == [] || (!IsSpace(s[0]) && !IsSpace(s[|s| - 1]))
    ensures Strip(l + s + r) == s
  {
    if s == [] {
      StripAllSpace(l + s + r);
    } else {
      assert l + s + r == l + (s + r);
      TrimLeftSpaces(l, s + r);
      TrimRightSpaces(s, r);
    }
  }

  /** `s.split(' ')[0]`: the text before the first U+0020 (other whitespace does
      not split). */
  function FirstToken(s: string): (r: string)
    ensures |r| <= |s| && r == s[..|r|]
    ensures forall i :: 0 <= i < |r| ==> r[i] != ' '
    ensures |r| < |s| ==> s[|r|] == ' '
  {
    if s == [] || s[0] == ' ' then [] else [s[0]] + FirstToken(s[1..])
  }

  lemma {:induction false} FirstTokenOfPrefix(t: string, rest: string)
    requires forall i :: 0 <= i < |t| ==> t[i] != ' '
    requires rest == [] || rest[0] == ' '
    ensures FirstToken(t + rest) == t
  {
    if t != [] {
      assert (t + rest)[1..] == t[1..] + rest;
      FirstTokenOfPrefix(t[1..], rest);
    }
  }

  /** The longest prefix free of whitespace. */
  function TakeWord(s: string): (w: string)
    ensures |w| <= |s| && w == s[..|w|] && NoSpace(w)
    ensures |w| < |s| ==> IsSpace(s[|w|])
  {
    if s == [] || IsSpace(s[0]) then [] else [s[0]] + TakeWord(s[1..])
  }

  /** `str.split()` with no argument: the maximal runs of non-whitespace. */
  function Words(s: string): (ws: seq<string>)
    ensures forall i :: 0 <= i < |ws| ==> ws[i] != [] && NoSpace(ws[i])
    decreases |s|
  {
    var t := TrimLeft(s);
    if t == [] then []
    else
      var w := TakeWord(t);
      [w] + Words(t[|w|..])
  }

  /** `" ".join(ws)` */
  function JoinSpace(ws: seq<string>): string
  {
    if ws == [] then []
    else if |ws| == 1 then ws[0]
    else ws[0] + " " + JoinSpace(ws[1..])
  }

  /** `" ".join(s.split())`: whitespace runs collapsed to one blank, the ends trimmed. */
  function CollapseSpaces(s: string): string
  {
    JoinSpace(Words(s))
  }

  /** The shape of a collapsed text: the only whitespace is single blanks
      between two non-blank characters. */
  predicate Collapsed(r: string)
  {
    forall i :: 0 <= i < |r| && IsSpace(r[i]) ==>
      r[i] == ' ' && 0 < i < |r| - 1 && !IsSpace(r[i - 1]) && !IsSpace(r[i + 1])
  }

  lemma {:induction false} JoinSpaceCollapsed(ws: seq<string>)
    requires forall i :: 0 <= i < |ws| ==> ws[i] != [] && NoSpace(ws[i])
    ensures Collapsed(JoinSpace(ws))
    ensures ws != [] ==> JoinSpace(ws) != [] && !IsSpace(JoinSpace(ws)[0])
  {
    if |ws| > 1 {
      JoinSpaceCollapsed(ws[1..]);
      var tail := JoinSpace(ws[1..]);
      var r := ws[0] + " " + tail;
      forall i | 0 <= i < |r| && IsSpace(r[i])
        ensures r[i] == ' ' && 0 < i < |r| - 1 && !IsSpace(r[i - 1]) && !IsSpace(r[i + 1])
      {
        if i == |ws[0]| {
          assert r[i - 1] == ws[0][|ws[0]| - 1];
          assert r[i + 1] == tail[0];
        } else if i > |ws[0]| {
          var k := i - |ws[0]| - 1;
          assert r[i] == tail[k];
          assert r[i - 1] == tail[k - 1];
          if k < |tail| - 1 {
            assert r[i + 1] == tail[k + 1];
          }
        }
      }
    }
  }

  lemma CollapseSpacesShape(s: string)
    ensures Collapsed(CollapseSpaces(s))
  {
    JoinSpaceCollapsed(Words(s));
  }

  /** Splitting a text of blank-joined words gives the words back. */
  lemma {:induction false} WordsOfJoin(ws: seq<string>)
    requires forall i :: 0 <= i < |ws| ==> ws[i] != [] && NoSpace(ws[i])
    ensures Words(JoinSpace(ws)) == ws
  {
    if ws == [] {
    } else if |ws| == 1 {
      WordsSingle(ws[0]);
    } else {
      WordsOfJoin(ws[1..]);
      JoinStep(ws);
      assert ws == [ws[0]] + ws[1..];
    }
  }

  /** Splitting a joined text takes off its first word. */
  lemma JoinStep(ws: seq<string>)
    requires |ws| > 1 && ws[0] != [] && NoSpace(ws[0]) && ws[1] != [] && NoSpace(ws[1])
    ensures Words(JoinSpace(ws)) == [ws[0]] + Words(JoinSpace(ws[1..]))
  {
    JoinSpaceHead(ws[1..]);
    WordsCons(ws[0], JoinSpace(ws[1..]));
  }

  lemma WordsSingle(w: string)
    requires w != [] && NoSpace(w)
    ensures Words(w) == [w]
  {
    WordsWordOnly(w, []);
    assert w + [] == w;
  }

  lemma {:induction false} JoinSpaceHead(ws: seq<string>)
    requires ws != [] && ws[0] != []
    ensures JoinSpace(ws) != [] && JoinSpace(ws)[0] == ws[0][0]
  {
  }

  lemma WordsCons(w: string, tail: string)
    requires w != [] && NoSpace(w)
    requires tail != [] && !IsSpace(tail[0])
    ensures Words(w + " " + tail) == [w] + Words(tail)
  {
    assert w + " " + tail == w + (" " + tail);
    WordsWordOnly(w, " " + tail);
    WordsAfterBlank(tail);
  }

  lemma WordsAfterBlank(t: string)
    requires t == [] || !IsSpace(t[0])
    ensures Words(" " + t) == Words(t)
  {
    assert (" " + t)[1..] == t;
    assert TrimLeft(" " + t) == TrimLeft(t);
  }

  /** A leading word followed by nothing or by whitespace is split off whole. */
  lemma {:induction false} WordsWordOnly(w: string, rest: string)
    requires w != [] && NoSpace(w)
    requires rest == [] || IsSpace(rest[0])
    ensures Words(w + rest) == [w] + Words(rest)
  {
    var s := w + rest;
    assert TrimLeft(s) == s;
    TakeWordPrefix(w, rest);
    assert s[|w|..] == rest;
  }

  lemma {:induction false} TakeWordPrefix(w: string, rest: string)
    requires NoSpace(w)
    requires rest == [] || IsSpace(rest[0])
    ensures TakeWord(w + rest) == w
  {
    if w != [] {
      assert (w + rest)[1..] == w[1..] + rest;
      TakeWordPrefix(w[1..], rest);
    }
  }

  /** Collapsing is idempotent. */
  lemma CollapseSpacesIdempotent(s: string)
    ensures CollapseSpaces(CollapseSpaces(s)) == CollapseSpaces(s)
  {
    WordsOfJoin(Words(s));
  }

  /** Every character of `s` satisfies `p`. */
  predicate AllChars(s: string, p: char -> bool)
  {
    forall i :: 0 <= i < |s| ==> p(s[i])
  }

  /** Splitting only cuts: the words hold characters of the text. */
  lemma {:induction false} WordsChars(s: string, p: char -> bool)
    requires AllChars(s, p)
    ensures forall i :: 0 <= i < |Words(s)| ==> AllChars(Words(s)[i], p)
    decreases |s|
  {
    var t := TrimLeft(s);
    if t != [] {
      var w := TakeWord(t);
      var rest := t[|w|..];
      SuffixChars(s, |s| - |t|, p);
      PrefixChars(t, |w|, p);
      SuffixChars(t, |w|, p);
      WordsChars(rest, p);
      ConsChars(w, Words(rest), p);
      assert Words(s) == [w] + Words(rest);
    }
  }

  lemma PrefixChars(s: string, k: nat, p: char -> bool)
    requires k <= |s| && AllChars(s, p)
    ensures AllChars(s[..k], p)
  {
    assert forall i :: 0 <= i < k ==> s[..k][i] == s[i];
  }

  lemma ConsChars(w: string, ws: seq<string>, p: char -> bool)
    requires AllChars(w, p) && forall i :: 0 <= i < |ws| ==> AllChars(ws[i], p)
    ensures forall i :: 0 <= i < |[w] + ws| ==> AllChars(([w] + ws)[i], p)
  {
    forall i | 0 <= i < |[w] + ws| ensures AllChars(([w] + ws)[i], p) {
      if i > 0 {
        assert ([w] + ws)[i] == ws[i - 1];
      }
    }
  }

  lemma SuffixChars(s: string, k: nat, p: char -> bool)
    requires k <= |s| && AllChars(s, p)
    ensures AllChars(s[k..], p)
  {
    assert forall i :: 0 <= i < |s| - k ==> s[k..][i] == s[k + i];
  }

  /** Joining adds only blanks. */
  lemma {:induction false} JoinSpaceChars(ws: seq<string>, p: char -> bool)
    requires p(' ')
    requires forall i :: 0 <= i < |ws| ==> AllChars(ws[i], p)
    ensures AllChars(JoinSpace(ws), p)
  {
    if |ws| > 1 {
      JoinSpaceChars(ws[1..], p);
      var tail := JoinSpace(ws[1..]);
      var r := ws[0] + " " + tail;
      forall k | 0 <= k < |r|
        ensures p(r[k])
      {
        if k < |ws[0]| {
          assert r[k] == ws[0][k];
        } else if k > |ws[0]| {
          assert r[k] == tail[k - |ws[0]| - 1];
        }
      }
    }
  }

  /** Collapsing whitespace adds only blanks to the characters of the text. */
  lemma CollapseSpacesChars(s: string, p: char -> bool)
    requires p(' ') && AllChars(s, p)
    ensures AllChars(CollapseSpaces(s), p)
  {
    WordsChars(s, p);
    JoinSpaceChars(Words(s), p);
  }

  // ---------------------------------------------------------------------------
  // Substrings (`sub in s`)
  // ---------------------------------------------------------------------------

  predicate IsPrefix(sub: string, s: string)
  {
    |sub| <= |s| && s[..|sub|] == sub
  }

  /** Python's `sub in s`. */
  predicate Contains(s: string, sub: string)
    decreases |s|
  {
    IsPrefix(sub, s) || (s != [] && Contains(s[1..], sub))
  }

  lemma {:induction false} ContainsAt(s: string, sub: string, i: nat)
    requires i + |sub| <= |s| && s[i..i + |sub|] == sub
    ensures Contains(s, sub)
  {
    if i > 0 {
      assert s[1..][i - 1..i - 1 + |sub|] == s[i..i + |sub|];
      ContainsAt(s[1..], sub, i - 1);
    }
  }

  lemma {:induction false} ContainsWitness(s: string, sub: string) returns (i: nat)
    requires Contains(s, sub)
    ensures i + |sub| <= |s| && s[i..i + |sub|] == sub
  {
    if IsPrefix(sub, s) {
      i := 0;
    } else {
      var j := ContainsWitness(s[1..], sub);
      assert s[1..][j..j + |sub|] == s[j + 1..j + 1 + |sub|];
      i := j + 1;
    }
  }

  // ---------------------------------------------------------------------------
  // Character edits
  // ---------------------------------------------------------------------------

  /** `s.replace(c, "")` */
  function RemoveChar(s: string, c: char): (r: string)
    ensures c !in r && |r| <= |s|
    ensures forall x :: x != c ==> (x in r <==> x in s)
  {
    if s == [] then []
    else if s[0] == c then RemoveChar(s[1..], c)
    else [s[0]] + RemoveChar(s[1..], c)
  }

  /** `s.replace(a, b)` for one-character a and b. */
  function ReplaceChar(s: string, a: char, b: char): (r: string)
    ensures |r| == |s|
    ensures forall i :: 0 <= i < |s| ==> r[i] == if s[i] == a then b else s[i]
  {
    seq(|s|, i requires 0 <= i < |s| => if s[i] == a then b else s[i])
  }

  function CountChar(s: string, c: char): nat
  {
    if s == [] then 0 else (if s[0] == c then 1 else 0) + CountChar(s[1..], c)
  }

  /** `s.find(c)`, with |s| standing for "absent". */
  function IndexOf(s: string, c: char): (k: nat)
    ensures k <= |s|
    ensures k < |s| ==> s[k] == c
    ensures forall i :: 0 <= i < k ==> s[i] != c
  {
    if s == [] then 0 else if s[0] == c then 0 else 1 + IndexOf(s[1..], c)
  }

  /** `s.rfind(c)`, -1 when absent. */
  function LastIndexOf(s: string, c: char): (k: int)
    ensures -1 <= k < |s|
    ensures k >= 0 ==> s[k] == c
    ensures forall i :: k < i < |s| ==> s[i] != c
  {
    if s == [] then -1
    else if s[|s| - 1] == c then |s| - 1
    else LastIndexOf(s[..|s| - 1], c)
  }

  lemma LastIndexOfPresent(s: string, c: char)
    ensures LastIndexOf(s, c) >= 0 <==> c in s
  {
    if c in s {
      var i :| 0 <= i < |s| && s[i] == c;
      assert LastIndexOf(s, c) >= i;
    }
  }

  // ---------------------------------------------------------------------------
  // Decimal digits and numbers
  // ---------------------------------------------------------------------------

  predicate IsDigit(c: char)
  {
    '0' <= c <= '9'
  }

  predicate AllDigits(s: string)
  {
    forall i :: 0 <= i < |s| ==> IsDigit(s[i])
  }

  function Pow10(n: nat): (p: nat)
    ensures p >= 1
  {
    if n == 0 then 1 else 10 * Pow10(n - 1)
  }

  /** The value of a string of decimal digits (`int(s)` for s non-empty). */
  function DigitsValue(s: string): (v: nat)
    requires AllDigits(s)
    ensures v < Pow10(|s|)
  {
    if s == [] then 0
    else DigitsValue(s[..|s| - 1]) * 10 + ((s[|s| - 1] as int) - ('0' as int))
  }

  lemma {:induction false} DigitsValueAppend(a: string, b: string)
    requires AllDigits(a) && AllDigits(b)
    ensures AllDigits(a + b)
    ensures DigitsValue(a + b) == DigitsValue(a) * Pow10(|b|) + DigitsValue(b)
  {
    if b != [] {
      var b', d := b[..|b| - 1], (b[|b| - 1] as int) - ('0' as int);
      assert (a + b)[..|a + b| - 1] == a + b';
      DigitsValueAppend(a, b');
      calc {
        DigitsValue(a + b);
        DigitsValue(a + b') * 10 + d;
        (DigitsValue(a) * Pow10(|b'|) + DigitsValue(b')) * 10 + d;
        { MulAssoc(DigitsValue(a), Pow10(|b'|), 10); }
        DigitsValue(a) * Pow10(|b|) + DigitsValue(b);
      }
    } else {
      assert a + b == a;
    }
  }

  lemma MulAssoc(x: int, y: int, z: int)
    ensures (x * y) * z == x * (y * z)
  {
  }

  /** Decimal text of a natural number, without leading zeros ("0" for 0). */
  function NatText(n: nat): (s: string)
    ensures AllDigits(s) && s != []
    ensures DigitsValue(s) == n
    decreases n
  {
    var d := ['0' + ((n % 10) as char)];
    assert DigitsValue(d) == n % 10;
    if n < 10 then d
    else
      var h := NatText(n / 10);
      DigitsValueAppend(h, d);
      h + d
  }

  /** `float(s)` (or pandas `to_numeric`) on a text made only of digits and
      dots: at most one dot and at least one digit parse; everything else is
      an error. */
  function ParseDecimal(s: string): (r: Option<real>)
    ensures r.Some? ==> r.value >= 0.0
  {
    var k := IndexOf(s, '.');
    var ip := s[..k];
    var fp := if k < |s| then s[k + 1..] else [];
    if AllDigits(ip) && AllDigits(fp) && (ip != [] || fp != []) then
      Some(DigitsValue(ip) as real + (DigitsValue(fp) as real) / (Pow10(|fp|) as real))
    else None
  }

  /** Python's `float(t)` on text: surrounding whitespace is ignored and an
      optional sign may precede the digits. */
  function ParseFloat(t: string): (r: Option<real>)
    ensures ParseDecimal(Strip(t)).Some? ==> r == ParseDecimal(Strip(t))
  {
    var u := Strip(t);
    if u != [] && (u[0] == '+' || u[0] == '-') then
      assert IndexOf(u, '.') > 0 && !IsDigit(u[..IndexOf(u, '.')][0]);
      var v := ParseDecimal(u[1..]);
      if v.None? then None else if u[0] == '-' then Some(-v.value) else v
    else ParseDecimal(u)
  }

  /** `int(x)` truncates toward zero. */
  function Trunc(x: real): (n: int)
    ensures x >= 0.0 ==> n as real <= x < n as real + 1.0
    ensures x < 0.0 ==> n as real - 1.0 < x <= n as real
  {
    if x >= 0.0 then x.Floor else -((-x).Floor)
  }

  /** The value a digit string with a decimal point denotes. */
  function DecimalValue(ip: string, fp: string): real
    requires AllDigits(ip) && AllDigits(fp)
  {
    DigitsValue(ip) as real + (DigitsValue(fp) as real) / (Pow10(|fp|) as real)
  }

  lemma ParseDecimalPoint(ip: string, fp: string)
    requires AllDigits(ip) && AllDigits(fp) && ip != []
    ensures ParseDecimal(ip + "." + fp) == Some(DecimalValue(ip, fp))
  {
    var s := ip + "." + fp;
    assert IndexOf(s, '.') == |ip| by {
      assert s[|ip|] == '.';
      assert forall i :: 0 <= i < |ip| ==> s[i] == ip[i];
    }
    assert s[..|ip|] == ip;
    assert s[|ip| + 1..] == fp;
  }

  lemma ParseDecimalInteger(ip: string)
    requires AllDigits(ip) && ip != []
    ensures ParseDecimal(ip) == Some(DigitsValue(ip) as real)
  {
    assert IndexOf(ip, '.') == |ip|;
    assert ip[..|ip|] == ip;
  }

  /** A parse succeeds exactly when there is at most one dot and at least one
      digit. */
  lemma ParseDecimalSucceeds(s: string)
    requires DigitsOrDots(s)
    ensures ParseDecimal(s).Some? <==> CountChar(s, '.') <= 1 && HasDigit(s)
  {
    var k := IndexOf(s, '.');
    if k == |s| {
      CountCharZero(s, '.');
      assert s[..k] == s;
      assert s != [] ==> IsDigit(s[0]);
    } else {
      ParseDecimalDot(s, k);
    }
  }

  predicate DigitsOrDots(s: string)
  {
    forall i :: 0 <= i < |s| ==> IsDigit(s[i]) || s[i] == '.'
  }

  predicate HasDigit(s: string)
  {
    exists i :: 0 <= i < |s| && IsDigit(s[i])
  }

  lemma HasDigitSplit(ip: string, c: char, fp: string)
    requires !IsDigit(c)
    ensures HasDigit(ip + [c] + fp) <==> HasDigit(ip) || HasDigit(fp)
  {
    var s := ip + [c] + fp;
    if HasDigit(s) {
      var i :| 0 <= i < |s| && IsDigit(s[i]);
      if i > |ip| { assert fp[i - |ip| - 1] == s[i]; }
    }
    if HasDigit(fp) {
      var i :| 0 <= i < |fp| && IsDigit(fp[i]);
      assert s[i + |ip| + 1] == fp[i];
    }
    if HasDigit(ip) {
      var i :| 0 <= i < |ip| && IsDigit(ip[i]);
      assert s[i] == ip[i];
    }
  }

  lemma ParseDecimalDot(s: string, k: nat)
    requires DigitsOrDots(s)
    requires k == IndexOf(s, '.') && k < |s|
    ensures ParseDecimal(s).Some? <==> CountChar(s, '.') <= 1 && HasDigit(s)
  {
    ParseDecimalSplit(s, k);
    DigitsBeforeDot(s, k);
    DigitsOrDotsAfter(s, k);
    assert '.' !in s[..k] by {
      forall i | 0 <= i < k ensures s[..k][i] != '.' { assert s[..k][i] == s[i]; }
    }
    CountAtDot(s, k);
    HasDigitAtDot(s, k);
    DotFreeIsDigits(s[k + 1..]);
    DigitsHaveDigit(s[..k]);
    DigitsHaveDigit(s[k + 1..]);
  }

  /** Before the first dot there are only digits. */
  lemma DigitsBeforeDot(s: string, k: nat)
    requires DigitsOrDots(s)
    requires k == IndexOf(s, '.') && k < |s|
    ensures AllDigits(s[..k])
  {
    forall i | 0 <= i < k ensures IsDigit(s[..k][i]) { assert s[..k][i] == s[i]; }
  }

  lemma DigitsOrDotsAfter(s: string, k: nat)
    requires DigitsOrDots(s) && k < |s|
    ensures DigitsOrDots(s[k + 1..])
  {
    var t := s[k + 1..];
    forall i | 0 <= i < |t| ensures IsDigit(t[i]) || t[i] == '.' {
      assert t[i] == s[k + 1 + i];
    }
  }

  /** The first dot is counted once, the rest after it. */
  lemma CountAtDot(s: string, k: nat)
    requires k < |s| && s[k] == '.' && '.' !in s[..k]
    ensures CountChar(s, '.') == 1 + CountChar(s[k + 1..], '.')
  {
    assert s == s[..k] + [s[k]] + s[k + 1..];
    CountDotSplit(s[..k], s[k], s[k + 1..]);
  }

  /** A digit is somewhere exactly when it is on one side of the dot. */
  lemma HasDigitAtDot(s: string, k: nat)
    requires k < |s| && s[k] == '.'
    ensures HasDigit(s) <==> HasDigit(s[..k]) || HasDigit(s[k + 1..])
  {
    assert s == s[..k] + [s[k]] + s[k + 1..];
    HasDigitSplit(s[..k], s[k], s[k + 1..]);
  }

  /** Where the first dot is, the parse needs digits on both sides. */
  lemma ParseDecimalSplit(s: string, k: nat)
    requires k == IndexOf(s, '.') && k < |s|
    ensures ParseDecimal(s).Some? <==> AllDigits(s[..k]) && AllDigits(s[k + 1..]) && (s[..k] != [] || s[k + 1..] != [])
  {
  }

  lemma CountDotSplit(ip: string, c: char, fp: string)
    requires c == '.' && '.' !in ip
    ensures CountChar(ip + [c] + fp, '.') == 1 + CountChar(fp, '.')
  {
    CountCharAppend(ip + [c], fp, '.');
    CountCharAppend(ip, [c], '.');
    CountCharZero(ip, '.');
  }

  lemma DotFreeIsDigits(s: string)
    requires DigitsOrDots(s)
    ensures AllDigits(s) <==> CountChar(s, '.') == 0
  {
    CountCharZero(s, '.');
  }

  lemma DigitsHaveDigit(s: string)
    ensures AllDigits(s) ==> (s != [] <==> HasDigit(s))
  {
    if s != [] && AllDigits(s) { assert IsDigit(s[0]); }
  }

  lemma {:induction false} CountCharZero(s: string, c: char)
    ensures CountChar(s, c) == 0 <==> c !in s
  {
    if s != [] {
      CountCharZero(s[1..], c);
      assert s == [s[0]] + s[1..];
    }
  }

  lemma {:induction false} CountCharAppend(a: string, b: string, c: char)
    ensures CountChar(a + b, c) == CountChar(a, c) + CountChar(b, c)
  {
    if a != [] {
      assert (a + b)[1..] == a[1..] + b;
      CountCharAppend(a[1..], b, c);
    } else {
      assert a + b == b;
    }
  }

  // ---------------------------------------------------------------------------
  // Code-point order on strings (Python's `<` on str) and sorted distinct keys
  // ---------------------------------------------------------------------------

  predicate StrLt(a: string, b: string)
  {
    if a == [] then b != []
    else if b == [] then false
    else if a[0] != b[0] then a[0] < b[0]
    else StrLt(a[1..], b[1..])
  }

  lemma {:induction false} StrLtIrreflexive(a: string)
    ensures !StrLt(a, a)
  {
    if a != [] { StrLtIrreflexive(a[1..]); }
  }

  lemma {:induction false} StrLtTransitive(a: string, b: string, c: string)
    requires StrLt(a, b) && StrLt(b, c)
    ensures StrLt(a, c)
  {
    if a != [] && b != [] && c != [] && a[0] == b[0] && b[0] == c[0] {
      StrLtTransitive(a[1..], b[1..], c[1..]);
    }
  }

  lemma {:induction false} StrLtTotal(a: string, b: string)
    ensures a == b || StrLt(a, b) || StrLt(b, a)
  {
    if a != [] && b != [] && a[0] == b[0] {
      StrLtTotal(a[1..], b[1..]);
      if a[1..] == b[1..] {
        assert a == [a[0]] + a[1..] && b == [b[0]] + b[1..];
      }
    }
  }

  lemma StrLtAsymmetric(a: string, b: string)
    requires StrLt(a, b)
    ensures !StrLt(b, a)
  {
    if StrLt(b, a) {
      StrLtTransitive(a, b, a);
      StrLtIrreflexive(a);
    }
  }

  /** The set of elements of a sequence. */
  function Elems<T>(s: seq<T>): set<T>
  {
    set x | x in s
  }

  lemma ElemsEmpty<T>(s: seq<T>)
    ensures Elems(s) == {} <==> s == []
  {
    if s != [] { assert s[0] in Elems(s); }
  }

  predicate StrictlySorted(s: seq<string>)
  {
    forall i, j :: 0 <= i < j < |s| ==> StrLt(s[i], s[j])
  }

  function InsertSorted(x: string, s: seq<string>): (r: seq<string>)
    requires StrictlySorted(s)
    ensures StrictlySorted(r)
    ensures Elems(r) == Elems(s) + {x}
  {
    if s == [] then [x]
    else if x == s[0] then assert s[0] in Elems(s); s
    else if StrLt(x, s[0]) then
      InsertFront(x, s);
      ElemsCons(x, s);
      [x] + s
    else
      StrLtTotal(x, s[0]);
      var t := InsertSorted(x, s[1..]);
      InsertBehind(x, s, t);
      ElemsCons(s[0], t);
      ElemsCons(s[0], s[1..]);
      assert [s[0]] + s[1..] == s;
      [s[0]] + t
  }

  lemma ElemsCons<T>(a: T, t: seq<T>)
    ensures Elems([a] + t) == {a} + Elems(t)
  {
    assert forall y :: y in [a] + t <==> y == a || y in t;
  }

  lemma InsertFront(x: string, s: seq<string>)
    requires StrictlySorted(s) && s != [] && StrLt(x, s[0])
    ensures StrictlySorted([x] + s)
  {
    forall j | 0 < j <= |s| ensures StrLt(([x] + s)[0], ([x] + s)[j]) {
      if j > 1 { StrLtTransitive(x, s[0], s[j - 1]); }
    }
  }

  lemma InsertBehind(x: string, s: seq<string>, t: seq<string>)
    requires StrictlySorted(s) && s != [] && StrLt(s[0], x) && StrictlySorted(t)
    requires Elems(t) == Elems(s[1..]) + {x}
    ensures StrictlySorted([s[0]] + t)
  {
    forall j | 0 <= j < |t| ensures StrLt(s[0], t[j]) {
      assert t[j] in Elems(t);
      if t[j] != x {
        var k :| 0 <= k < |s[1..]| && s[1..][k] == t[j];
        assert s[k + 1] == t[j];
      }
    }
  }

  /** The distinct strings of `xs` in ascending code-point order (how pandas
      orders the keys of a `groupby` on a text column). */
  function SortDistinct(xs: seq<string>): (r: seq<string>)
    ensures StrictlySorted(r)
    ensures Elems(r) == Elems(xs)
  {
    if xs == [] then []
    else
      var r := InsertSorted(xs[|xs| - 1], SortDistinct(xs[..|xs| - 1]));
      assert xs == xs[..|xs| - 1] + [xs[|xs| - 1]];
      assert Elems(xs) == Elems(xs[..|xs| - 1]) + {xs[|xs| - 1]};
      r
  }

  /** The least element heads a strictly sorted sequence. */
  lemma SortedHeadIsLeast(a: seq<string>, y: string)
    requires StrictlySorted(a) && a != [] && y in a
    ensures y == a[0] || StrLt(a[0], y)
  {
  }

  /** A strictly sorted sequence is determined by its set of elements. */
  lemma {:induction false} StrictlySortedUnique(a: seq<string>, b: seq<string>)
    requires StrictlySorted(a) && StrictlySorted(b)
    requires Elems(a) == Elems(b)
    ensures a == b
  {
    if a == [] || b == [] {
      ElemsEmpty(a);
      ElemsEmpty(b);
    } else {
      assert a[0] in Elems(b) && b[0] in Elems(a);
      SortedHeadIsLeast(a, b[0]);
      SortedHeadIsLeast(b, a[0]);
      if a[0] != b[0] {
        StrLtAsymmetric(a[0], b[0]);
      }
      forall y | y in Elems(a[1..]) ensures y in Elems(b[1..]) {
        assert y in Elems(b);
        if y == b[0] {
          var i :| 0 <= i < |a[1..]| && a[1..][i] == y;
          assert StrLt(a[0], a[i + 1]);
          StrLtIrreflexive(y);
        }
        var m :| 0 <= m < |b| && b[m] == y;
        assert b[1..][m - 1] == y;
      }
      forall y | y in Elems(b[1..]) ensures y in Elems(a[1..]) {
        assert y in Elems(a);
        if y == a[0] {
          var i :| 0 <= i < |b[1..]| && b[1..][i] == y;
          assert StrLt(b[0], b[i + 1]);
          StrLtIrreflexive(y);
        }
        var m :| 0 <= m < |a| && a[m] == y;
        assert a[1..][m - 1] == y;
      }
      StrictlySortedUnique(a[1..], b[1..]);
      assert a == [a[0]] + a[1..] && b == [b[0]] + b[1..];
    }
  }

  // ---------------------------------------------------------------------------
  // Row filters
  // ---------------------------------------------------------------------------

  /** The rows `f` keeps, each turned into what `f` gives for it, in order
      (a frame filtered by a mask, then a column derived from each row). */
  function FilterMap<T, U>(xs: seq<T>, f: T -> Option<U>): seq<U>
  {
    if xs == [] then []
    else
      var last := xs[|xs| - 1];
      FilterMap(xs[..|xs| - 1], f) + (if f(last).Some? then [f(last).value] else [])
  }

  /** The kept rows are exactly the rows `f` accepts, at increasing
      positions of the input. */
  lemma {:induction false} FilterMapIndices<T, U>(xs: seq<T>, f: T -> Option<U>) returns (idx: seq<nat>)
    ensures |idx| == |FilterMap(xs, f)|
    ensures forall i :: 0 <= i < |idx| ==> idx[i] < |xs| && f(xs[idx[i]]) == Some(FilterMap(xs, f)[i])
    ensures forall i, j :: 0 <= i < j < |idx| ==> idx[i] < idx[j]
    ensures forall k :: 0 <= k < |xs| && f(xs[k]).Some? ==> k in idx
  {
    if xs == [] {
      idx := [];
    } else {
      var n := |xs| - 1;
      var init := xs[..n];
      var prev := FilterMapIndices(init, f);
      assert forall i :: 0 <= i < |prev| ==> init[prev[i]] == xs[prev[i]];
      if f(xs[n]).Some? {
        idx := prev + [n];
      } else {
        idx := prev;
      }
      forall k | 0 <= k < |xs| && f(xs[k]).Some?
        ensures k in idx
      {
        if k < n {
          assert init[k] == xs[k];
        }
      }
    }
  }

  /** Appending one element appends its image, if any. */
  lemma FilterMapSnoc<T, U>(xs: seq<T>, x: T, f: T -> Option<U>)
    ensures FilterMap(xs + [x], f) == FilterMap(xs, f) + (if f(x).Some? then [f(x).value] else [])
  {
    assert (xs + [x])[..|xs|] == xs;
  }

  /** Nothing is kept exactly when `f` accepts no element. */
  lemma FilterMapEmpty<T, U>(xs: seq<T>, f: T -> Option<U>)
    ensures FilterMap(xs, f) == [] <==> forall k :: 0 <= k < |xs| ==> f(xs[k]).None?
  {
    var idx := FilterMapIndices(xs, f);
    if exists k :: 0 <= k < |xs| && f(xs[k]).Some? {
      var k :| 0 <= k < |xs| && f(xs[k]).Some?;
      assert k in idx;
    }
  }

  /** A prefix one longer is the prefix and the next element. */
  lemma TakeSnoc<T>(s: seq<T>, j: nat)
    requires j < |s|
    ensures s[..j + 1] == s[..j] + [s[j]]
  {
  }

  /** The images of the elements under `g`, concatenated in order. */
  function ConcatMap<T, U>(xs: seq<T>, g: T -> seq<U>): seq<U>
  {
    if xs == [] then [] else ConcatMap(xs[..|xs| - 1], g) + g(xs[|xs| - 1])
  }

  lemma ConcatMapSnoc<T, U>(xs: seq<T>, x: T, g: T -> seq<U>)
    ensures ConcatMap(xs + [x], g) == ConcatMap(xs, g) + g(x)
  {
    assert (xs + [x])[..|xs|] == xs;
  }

  /** The concatenation is empty exactly when every image is. */
  lemma {:induction false} ConcatMapEmpty<T, U>(xs: seq<T>, g: T -> seq<U>)
    ensures ConcatMap(xs, g) == [] <==> forall i :: 0 <= i < |xs| ==> g(xs[i]) == []
  {
    if xs != [] {
      var n := |xs| - 1;
      ConcatMapEmpty(xs[..n], g);
      assert forall i :: 0 <= i < n ==> xs[..n][i] == xs[i];
    }
  }

  /** Every element of the concatenation comes from some image. */
  lemma {:induction false} ConcatMapMember<T, U>(xs: seq<T>, g: T -> seq<U>, u: U)
    requires u in ConcatMap(xs, g)
    ensures exists i :: 0 <= i < |xs| && u in g(xs[i])
  {
    var n := |xs| - 1;
    if u in ConcatMap(xs[..n], g) {
      ConcatMapMember(xs[..n], g, u);
      var i :| 0 <= i < n && u in g(xs[..n][i]);
      assert xs[..n][i] == xs[i];
    } else {
      assert u in g(xs[n]);
    }
  }

  /** Every element of an image is in the concatenation. */
  lemma {:induction false} ConcatMapIn<T, U>(xs: seq<T>, g: T -> seq<U>, j: nat, u: U)
    requires j < |xs| && u in g(xs[j])
    ensures u in ConcatMap(xs, g)
  {
    var n := |xs| - 1;
    if j < n {
      assert xs[..n][j] == xs[j];
      ConcatMapIn(xs[..n], g, j, u);
    }
  }

  /** `f` followed by `g`, for elements `f` keeps. */
  function Then<A, B, C>(f: A -> Option<B>, g: B -> Option<C>): A -> Option<C>
  {
    x => if f(x).Some? then g(f(x).value) else None
  }

  lemma ThenApply<A, B, C>(f: A -> Option<B>, g: B -> Option<C>, x: A)
    ensures Then(f, g)(x) == if f(x).Some? then g(f(x).value) else None
  {
  }

  /** Two filters in a row are one filter by their composition. */
  lemma {:induction false} FilterMapThen<A, B, C>(xs: seq<A>, f: A -> Option<B>, g: B -> Option<C>)
    ensures FilterMap(FilterMap(xs, f), g) == FilterMap(xs, Then(f, g))
  {
    if xs != [] {
      var n := |xs| - 1;
      FilterMapThen(xs[..n], f, g);
      var ys := FilterMap(xs[..n], f);
      if f(xs[n]).Some? {
        FilterMapSnoc(ys, f(xs[n]).value, g);
      } else {
        assert FilterMap(xs, f) == ys + [];
        assert ys + [] == ys;
      }
    }
  }

  /** The filter that keeps everything. */
  function Keep<T>(): T -> Option<T>
  {
    x => Some(x)
  }

  lemma KeepApply<T>(x: T)
    ensures Keep()(x) == Some(x)
  {
  }

  lemma {:induction false} FilterMapKeep<T>(xs: seq<T>)
    ensures FilterMap(xs, Keep()) == xs
  {
    if xs != [] {
      FilterMapKeep(xs[..|xs| - 1]);
      assert xs == xs[..|xs| - 1] + [xs[|xs| - 1]];
    }
  }

  /** Filters that agree on every element keep the same elements. */
  lemma {:induction false} FilterMapAgree<T, U>(xs: seq<T>, f: T -> Option<U>, g: T -> Option<U>)
    requires forall x :: f(x) == g(x)
    ensures FilterMap(xs, f) == FilterMap(xs, g)
  {
    if xs != [] {
      FilterMapAgree(xs[..|xs| - 1], f, g);
    }
  }

  /** An element is kept exactly when some input element maps to it. */
  lemma FilterMapMember<T, U>(xs: seq<T>, f: T -> Option<U>, y: U)
    ensures y in FilterMap(xs, f) <==> exists k :: 0 <= k < |xs| && f(xs[k]) == Some(y)
  {
    var idx := FilterMapIndices(xs, f);
    var ys := FilterMap(xs, f);
    if y in ys {
      var i :| 0 <= i < |ys| && ys[i] == y;
      assert f(xs[idx[i]]) == Some(y);
    }
    if exists k :: 0 <= k < |xs| && f(xs[k]) == Some(y) {
      var k :| 0 <= k < |xs| && f(xs[k]) == Some(y);
      assert k in idx;
      var i :| 0 <= i < |idx| && idx[i] == k;
      assert ys[i] == y;
    }
  }

  /** Running a pure filter (one that keeps elements as they are) a second
      time changes nothing. */
  lemma FilterMapFilterTwice<T>(xs: seq<T>, f: T -> Option<T>)
    requires forall x :: f(x) == None || f(x) == Some(x)
    ensures FilterMap(FilterMap(xs, f), f) == FilterMap(xs, f)
  {
    FilterMapThen(xs, f, f);
    FilterMapAgree(xs, Then(f, f), f);
  }

  /** The number of elements satisfying `p`. */
  function CountIf<T>(xs: seq<T>, p: T -> bool): (n: nat)
    ensures n <= |xs|
  {
    if xs == [] then 0
    else CountIf(xs[..|xs| - 1], p) + (if p(xs[|xs| - 1]) then 1 else 0)
  }

  /** A condition that holds wherever `p` does, on the elements of `xs`,
      counts at least as many of them. */
  lemma {:induction false} CountIfOn<T>(xs: seq<T>, p: T -> bool, q: T -> bool)
    requires forall i :: 0 <= i < |xs| && p(xs[i]) ==> q(xs[i])
    ensures CountIf(xs, p) <= CountIf(xs, q)
  {
    if xs != [] {
      var n := |xs| - 1;
      assert forall i :: 0 <= i < n ==> xs[..n][i] == xs[i];
      CountIfOn(xs[..n], p, q);
    }
  }

  /** The number of times `x` occurs in `xs`. */
  function Occurrences<T(==)>(xs: seq<T>, x: T): nat
  {
    if xs == [] then 0
    else Occurrences(xs[..|xs| - 1], x) + (if xs[|xs| - 1] == x then 1 else 0)
  }

  lemma {:induction false} OccurrencesPositive<T>(xs: seq<T>, x: T)
    ensures Occurrences(xs, x) > 0 <==> x in xs
  {
    if xs != [] {
      var n := |xs| - 1;
      OccurrencesPositive(xs[..n], x);
      assert xs == xs[..n] + [xs[n]];
    }
  }

  /** `pd.Series(xs).value_counts().to_dict()`: each value with the number
      of times it occurs. */
  function ValueCounts<T(==,!new)>(xs: seq<T>): (m: map<T, nat>)
    ensures forall k :: k in m <==> k in xs
    ensures forall k :: k in m ==> m[k] == Occurrences(xs, k)
  {
    if xs == [] then map[]
    else
      var n := |xs| - 1;
      var prev := ValueCounts(xs[..n]);
      assert xs == xs[..n] + [xs[n]];
      OccurrencesPositive(xs[..n], xs[n]);
      prev[xs[n] := (if xs[n] in prev then prev[xs[n]] else 0) + 1]
  }

  /** `round(x, 1)`, rounding halves up. */
  function RoundTenth(x: real): (r: real)
    ensures -0.05 < r - x <= 0.05
    ensures (r * 10.0).Floor as real == r * 10.0
  {
    ((x * 10.0 + 0.5).Floor as real) / 10.0
  }

  /** Rounding keeps a percentage between 0 and 100. */
  lemma RoundTenthPercent(x: real)
    requires 0.0 <= x <= 100.0
    ensures 0.0 <= RoundTenth(x) <= 100.0
  {
    var f := (x * 10.0 + 0.5).Floor;
    assert 0 <= f <= 1000;
  }

  /** No element is counted exactly when none satisfies `p`. */
  lemma {:induction false} CountIfZero<T>(xs: seq<T>, p: T -> bool)
    ensures CountIf(xs, p) == 0 <==> forall i :: 0 <= i < |xs| ==> !p(xs[i])
  {
    if xs != [] {
      var n := |xs| - 1;
      CountIfZero(xs[..n], p);
      assert forall i :: 0 <= i < n ==> xs[..n][i] == xs[i];
    }
  }
}
