/**
 * The handful of Python built-ins the backend leans on, stated over Dafny
 * strings and sequences: optional values and their truthiness, `a or b`,
 * `str(x)`, slicing `s[:n]`, `str.strip()`, `str.lower()`, `str.split()`,
 * `str.split(sep)`, `sep.join(parts)` and `str(int)`.
 *
 * Whitespace and case are ASCII only (Python uses the Unicode tables).
 */
module Py {

  datatype Option<T> = None | Some(value: T)

  /** Python truthiness of an optional string: None and "" are false. */
  predicate Truthy(o: Option<string>)
  {
    o.Some? && o.value != ""
  }

  /** Python `a or b` on optional strings. */
  function Or(a: Option<string>, b: Option<string>): Option<string>
  {
    if Truthy(a) then a else b
  }

  /** Python `str(x)` of an optional string: `str(None)` is "None". */
  function Str(o: Option<string>): string
  {
    match o
    case None => "None"
    case Some(s) => s
  }

  /** `x or ''` */
  function OrEmpty(o: Option<string>): string
  {
    if o.Some? then o.value else ""
  }

  function Min(a: int, b: int): int { if a <= b then a else b }

  function Max(a: int, b: int): int { if a >= b then a else b }

  /** Python slice `s[:n]`, including its meaning for a negative `n`. */
  function Take<T>(s: seq<T>, n: int): (r: seq<T>)
    ensures r <= s
    ensures 0 <= n ==> |r| == Min(n, |s|)
    ensures n < 0 ==> |r| == Max(0, |s| + n)
  {
    if n >= 0 then (if n <= |s| then s[..n] else s)
    else if |s| + n >= 0 then s[..|s| + n]
    else []
  }

  /** What `s[:n]` takes is a prefix. */
  lemma TakePrefix<T>(s: seq<T>, n: int)
    ensures Take(s, n) == s[..|Take(s, n)|]
  {
  }

  /** Python `str.isspace` for one character (ASCII). */
  predicate IsSpace(c: char)
  {
    c == ' ' || c == '\t' || c == '\n' || c == '\r' || c == 11 as char || c == 12 as char
  }

  function LStrip(s: string): (r: string)
    ensures |r| <= |s|
    ensures r == [] || !IsSpace(r[0])
  {
    if s != [] && IsSpace(s[0]) then LStrip(s[1..]) else s
  }

  function RStrip(s: string): (r: string)
    ensures |r| <= |s|
    ensures r == [] || !IsSpace(r[|r| - 1])
    ensures r == [] || !IsSpace(r[0]) || (s != [] && IsSpace(s[0]))
  {
    if s != [] && IsSpace(s[|s| - 1]) then RStrip(s[..|s| - 1]) else s
  }

  /** Stripping on the left keeps a suffix. */
  lemma {:induction false} LStripSuffix(s: string)
    ensures LStrip(s) == s[|s| - |LStrip(s)|..]
  {
    if s != [] && IsSpace(s[0]) {
      LStripSuffix(s[1..]);
      assert s[1..][|s| - 1 - |LStrip(s)|..] == s[|s| - |LStrip(s)|..];
    }
  }

  /** Stripping on the right keeps a prefix. */
  lemma {:induction false} RStripPrefix(s: string)
    ensures RStrip(s) == s[..|RStrip(s)|]
  {
    if s != [] && IsSpace(s[|s| - 1]) {
      RStripPrefix(s[..|s| - 1]);
      assert s[..|s| - 1][..|RStrip(s)|] == s[..|RStrip(s)|];
    }
  }

  /** Neither end is whitespace, so `strip()` leaves the text unchanged. */
  predicate Trimmed(s: string)
  {
    s == [] || (!IsSpace(s[0]) && !IsSpace(s[|s| - 1]))
  }

  /** Python `str.strip()`: the text between the leading and trailing
      whitespace; text without either is unchanged. */
  function Strip(s: string): (r: string)
    ensures |r| <= |s|
    ensures Trimmed(r)
    ensures Trimmed(s) ==> r == s
  {
    RStrip(LStrip(s))
  }

  /** Lower-casing neither creates nor removes whitespace, so it commutes with
      stripping. */
  lemma {:induction false} StripLower(s: string)
    ensures Strip(Lower(s)) == Lower(Strip(s))
  {
    LStripLower(s);
    RStripLower(LStrip(s));
  }

  lemma {:induction false} LStripLower(s: string)
    ensures LStrip(Lower(s)) == Lower(LStrip(s))
  {
    if s != [] && IsSpace(s[0]) {
      assert Lower(s)[1..] == Lower(s[1..]);
      LStripLower(s[1..]);
    }
  }

  lemma {:induction false} RStripLower(s: string)
    ensures RStrip(Lower(s)) == Lower(RStrip(s))
  {
    if s != [] && IsSpace(s[|s| - 1]) {
      assert Lower(s)[..|s| - 1] == Lower(s[..|s| - 1]);
      RStripLower(s[..|s| - 1]);
    }
  }

  function LowerChar(c: char): char
  {
    if 'A' <= c <= 'Z' then (c as int + 32) as char else c
  }

  /** Python `str.lower()` (ASCII letters only). */
  function Lower(s: string): (r: string)
    ensures |r| == |s|
    ensures forall i :: 0 <= i < |s| ==> r[i] == LowerChar(s[i])
  {
    seq(|s|, i requires 0 <= i < |s| => LowerChar(s[i]))
  }

  lemma LowerIdempotent(s: string)
    ensures Lower(Lower(s)) == Lower(s)
  {
  }

  predicate StartsWith(s: string, prefix: string)
  {
    |prefix| <= |s| && s[..|prefix|] == prefix
  }

  /** End of the run of non-whitespace characters that starts at `i`. */
  function WordEnd(s: string, i: nat): (k: nat)
    requires i <= |s|
    ensures i <= k <= |s|
    ensures forall m :: i <= m < k ==> !IsSpace(s[m])
    ensures k < |s| ==> IsSpace(s[k])
    decreases |s| - i
  {
    if i == |s| || IsSpace(s[i]) then i else WordEnd(s, i + 1)
  }

  /** Python `str.split()` with no argument: maximal runs of non-whitespace. */
  function Words(s: string): seq<string>
    decreases |s|
  {
    if s == [] then []
    else if IsSpace(s[0]) then Words(s[1..])
    else
      var k := WordEnd(s, 0);
      [s[..k]] + Words(s[k..])
  }

  /** A word is what `split()` can return: non-empty and free of whitespace. */
  predicate IsWord(w: string)
  {
    w != [] && forall m :: 0 <= m < |w| ==> !IsSpace(w[m])
  }

  lemma {:induction false} WordsAreWords(s: string)
    ensures forall w :: w in Words(s) ==> IsWord(w)
    decreases |s|
  {
    if s == [] {
    } else if IsSpace(s[0]) {
      WordsAreWords(s[1..]);
    } else {
      var k := WordEnd(s, 0);
      WordsAreWords(s[k..]);
    }
  }

  /** Every word lower-cased, in order. */
  function LowerAll(ws: seq<string>): (r: seq<string>)
    ensures |r| == |ws| && forall i :: 0 <= i < |ws| ==> r[i] == Lower(ws[i])
  {
    seq(|ws|, i requires 0 <= i < |ws| => Lower(ws[i]))
  }

  lemma {:induction false} WordEndLower(s: string, i: nat)
    requires i <= |s|
    ensures WordEnd(Lower(s), i) == WordEnd(s, i)
    decreases |s| - i
  {
    if i < |s| && !IsSpace(s[i]) {
      WordEndLower(s, i + 1);
    }
  }

  /** Lower-casing commutes with `split()`: splitting the lower-cased text gives
      the lower-cased words of the text, since case never touches whitespace. */
  lemma {:induction false} WordsLower(s: string)
    ensures Words(Lower(s)) == LowerAll(Words(s))
    decreases |s|
  {
    var l := Lower(s);
    if s != [] {
      assert l[1..] == Lower(s[1..]);
      if IsSpace(s[0]) {
        WordsLower(s[1..]);
      } else {
        var k := WordEnd(s, 0);
        WordEndLower(s, 0);
        assert l[..k] == Lower(s[..k]);
        assert l[k..] == Lower(s[k..]);
        WordsLower(s[k..]);
        assert LowerAll(Words(s)) == [Lower(s[..k])] + LowerAll(Words(s[k..]));
      }
    }
  }

  predicate EndsWith(s: string, suffix: string)
  {
    |suffix| <= |s| && s[|s| - |suffix|..] == suffix
  }

  /** A word followed by whitespace (or nothing) ends where the word ends. */
  lemma {:induction false} WordEndOfWord(w: string, rest: string, i: nat)
    requires IsWord(w) && i <= |w|
    requires rest == [] || IsSpace(rest[0])
    ensures WordEnd(w + rest, i) == |w|
    decreases |w| - i
  {
    var s := w + rest;
    if i < |w| {
      assert s[i] == w[i];
      WordEndOfWord(w, rest, i + 1);
    } else if rest != [] {
      assert s[i] == rest[0];
    }
  }

  /** `' '.join(ws).split()` gives back `ws` when every element is a word. */
  lemma {:induction false} WordsJoin(ws: seq<string>)
    requires forall w :: w in ws ==> IsWord(w)
    ensures Words(Join(" ", ws)) == ws
  {
    if |ws| == 1 {
      WordEndOfWord(ws[0], "", 0);
      assert ws[0] + "" == ws[0];
      assert ws[0][|ws[0]|..] == [];
    } else if |ws| > 1 {
      var w := ws[0];
      var rest := Join(" ", ws[1..]);
      var s := w + (" " + rest);
      assert Join(" ", ws) == s;
      WordEndOfWord(w, " " + rest, 0);
      assert s[0] == w[0];
      assert s[..|w|] == w;
      assert s[|w|..] == " " + rest;
      assert (" " + rest)[1..] == rest;
      WordsJoin(ws[1..]);
      assert Words(s) == [w] + Words(" " + rest);
    }
  }

  /** A string of whitespace only splits into no words. */
  lemma {:induction false} WordsOfBlank(s: string)
    requires forall i :: 0 <= i < |s| ==> IsSpace(s[i])
    ensures Words(s) == []
    decreases |s|
  {
    if s != [] {
      WordsOfBlank(s[1..]);
    }
  }

  /** Python `sep.join(parts)`. */
  function Join(sep: string, parts: seq<string>): string
  {
    if parts == [] then ""
    else if |parts| == 1 then parts[0]
    else parts[0] + sep + Join(sep, parts[1..])
  }

  /** Joining one more part appends the separator and that part. */
  lemma {:induction false} JoinSnoc(sep: string, parts: seq<string>, x: string)
    ensures Join(sep, parts + [x]) == if parts == [] then x else Join(sep, parts) + sep + x
  {
    if |parts| > 1 {
      assert (parts + [x])[1..] == parts[1..] + [x];
      JoinSnoc(sep, parts[1..], x);
    } else if |parts| == 1 {
      assert (parts + [x])[1..] == [x];
    }
  }

  predicate OccursAt(s: string, sep: string, i: nat)
  {
    i + |sep| <= |s| && s[i..i + |sep|] == sep
  }

  /** Index of the first occurrence of `sep` at or after `i`, or -1. */
  function FindFrom(s: string, sep: string, i: nat): (k: int)
    requires |sep| > 0
    ensures k == -1 || (i <= k && OccursAt(s, sep, k))
    ensures forall m :: i <= m && (k == -1 || m < k) ==> !OccursAt(s, sep, m)
    decreases |s| - i
  {
    if i + |sep| > |s| then -1
    else if s[i..i + |sep|] == sep then i
    else FindFrom(s, sep, i + 1)
  }

  /** Python `s.split(sep)` for a non-empty separator. */
  function SplitOn(s: string, sep: string): (parts: seq<string>)
    requires |sep| > 0
    ensures |parts| >= 1
    decreases |s|
  {
    var k := FindFrom(s, sep, 0);
    if k < 0 then [s] else [s[..k]] + SplitOn(s[k + |sep|..], sep)
  }

  /** `s.split(sep)` and `sep.join(...)` are inverse: the pieces glue back to `s`. */
  lemma {:induction false} JoinSplitOn(s: string, sep: string)
    requires |sep| > 0
    ensures Join(sep, SplitOn(s, sep)) == s
    decreases |s|
  {
    var k := FindFrom(s, sep, 0);
    if k >= 0 {
      var rest := s[k + |sep|..];
      var tail := SplitOn(rest, sep);
      JoinSplitOn(rest, sep);
      var parts := [s[..k]] + tail;
      assert SplitOn(s, sep) == parts;
      assert parts[0] == s[..k] && parts[1..] == tail && |parts| > 1;
      assert Join(sep, parts) == s[..k] + sep + rest;
      assert s == s[..k] + s[k..k + |sep|] + rest;
    }
  }

  /** No piece of `s.split(sep)` contains the separator. */
  lemma {:induction false} SplitOnPiecesFree(s: string, sep: string)
    requires |sep| > 0
    ensures forall p, m :: p in SplitOn(s, sep) && 0 <= m ==> !OccursAt(p, sep, m)
    decreases |s|
  {
    var k := FindFrom(s, sep, 0);
    if k < 0 {
      assert SplitOn(s, sep) == [s];
    } else {
      SplitOnPiecesFree(s[k + |sep|..], sep);
      forall m | 0 <= m ensures !OccursAt(s[..k], sep, m) {
        if OccursAt(s[..k], sep, m) {
          assert s[..k][m..m + |sep|] == s[m..m + |sep|];
          assert OccursAt(s, sep, m);
        }
      }
    }
  }

  /** The trimmed pieces that are not empty, in order. */
  function StrippedPieces(pieces: seq<string>): (names: seq<string>)
    ensures |names| <= |pieces|
    ensures forall k :: 0 <= k < |names| ==> names[k] != "" && Trimmed(names[k])
  {
    if pieces == [] then []
    else
      var s := Strip(pieces[0]);
      (if s != "" then [s] else []) + StrippedPieces(pieces[1..])
  }

  /** The stripped text is a slice of the original, starting after the
      leading whitespace. */
  lemma StripSlice(s: string)
    ensures |s| - |LStrip(s)| + |Strip(s)| <= |s|
    ensures Strip(s) == s[|s| - |LStrip(s)|..|s| - |LStrip(s)| + |Strip(s)|]
  {
    var l := LStrip(s);
    var k := |s| - |l|;
    LStripSuffix(s);
    var r := RStrip(l);
    RStripPrefix(l);
    SuffixPrefix(s, k, |r|);
    assert Strip(s) == r;
  }

  /** A prefix of a suffix is a slice. */
  lemma SuffixPrefix(s: string, k: nat, n: nat)
    requires k + n <= |s|
    ensures s[k..][..n] == s[k..k + n]
  {
  }

  lemma StripInside(s: string)
    ensures forall c :: c in Strip(s) ==> c in s
  {
    StripSlice(s);
  }

  /** Some piece trims to `x`. */
  predicate TrimsTo(pieces: seq<string>, x: string)
  {
    exists m :: 0 <= m < |pieces| && Strip(pieces[m]) == x
  }

  lemma TrimsToCons(pieces: seq<string>, x: string)
    requires pieces != []
    ensures TrimsTo(pieces, x) <==> Strip(pieces[0]) == x || TrimsTo(pieces[1..], x)
  {
    var tail := pieces[1..];
    if TrimsTo(tail, x) {
      var m :| 0 <= m < |tail| && Strip(tail[m]) == x;
      assert pieces[m + 1] == tail[m];
    }
    if TrimsTo(pieces, x) {
      var m :| 0 <= m < |pieces| && Strip(pieces[m]) == x;
      if m > 0 {
        assert tail[m - 1] == pieces[m];
      }
    }
  }

  /** Every value in the trimmed pieces is the trimmed form of a piece, and
      every piece whose trimmed form is not empty contributes it. */
  lemma {:induction false} StrippedPiecesMembers(pieces: seq<string>, x: string)
    ensures x in StrippedPieces(pieces) <==> x != "" && TrimsTo(pieces, x)
  {
    if pieces != [] {
      var s := Strip(pieces[0]);
      StrippedPiecesMembers(pieces[1..], x);
      TrimsToCons(pieces, x);
      assert StrippedPieces(pieces) == (if s != "" then [s] else []) + StrippedPieces(pieces[1..]);
    }
  }

  /** The comma-separated items of a text, trimmed, dropping empty ones. */
  function CommaList(text: string): seq<string>
  {
    StrippedPieces(SplitOn(text, ","))
  }

  /** Values read from a comma-separated string hold no comma. */
  lemma {:induction false} StrippedPiecesNoComma(pieces: seq<string>)
    requires forall p :: p in pieces ==> ',' !in p
    ensures forall n :: n in StrippedPieces(pieces) ==> ',' !in n
  {
    if pieces != [] {
      StripInside(pieces[0]);
      StrippedPiecesNoComma(pieces[1..]);
    }
  }

  /** Every value read from a comma-separated string is non-empty, has no surrounding
      whitespace and contains no comma. */
  lemma CommaListClean(text: string)
    ensures forall n :: n in CommaList(text) ==> n != "" && Trimmed(n) && ',' !in n
  {
    var pieces := SplitOn(text, ",");
    SplitOnPiecesFree(text, ",");
    forall p | p in pieces ensures ',' !in p {
      if ',' in p {
        var m :| 0 <= m < |p| && p[m] == ',';
        assert p[m..m + 1] == ",";
        assert OccursAt(p, ",", m);
      }
    }
    StrippedPiecesNoComma(pieces);
  }

  function DigitChar(d: nat): char
    requires d < 10
  {
    ('0' as int + d) as char
  }

  /** Decimal text of a natural number, as `str(n)`. */
  function NatToString(n: nat): (r: string)
    ensures |r| >= 1 && (|r| == 1 <==> n < 10)
    ensures forall i :: 0 <= i < |r| ==> '0' <= r[i] <= '9'
  {
    if n < 10 then [DigitChar(n)] else NatToString(n / 10) + [DigitChar(n % 10)]
  }

  /** Python `str(i)` for an integer. */
  function IntToString(i: int): string
  {
    if i < 0 then "-" + NatToString(-i) else NatToString(i)
  }
}
