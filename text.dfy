/**
 * The string routines of Python's `str` that the core relies on: `strip`, `lstrip(c)`,
 * `rstrip(c)`, `split(c)`, `rsplit(c, 1)`, `lower`, `endswith`, `str(int)` and `zfill`.
 */
module Text {

  /** Python's `str.isspace` for one character. */
  predicate IsSpace(c: char) {
    var n := c as int;
    (0x09 <= n <= 0x0D) || (0x1C <= n <= 0x20) || n == 0x85 || n == 0xA0 || n == 0x1680
    || (0x2000 <= n <= 0x200A) || n == 0x2028 || n == 0x2029 || n == 0x202F || n == 0x205F
    || n == 0x3000
  }

  predicate AllSpace(s: string) {
    forall i :: 0 <= i < |s| ==> IsSpace(s[i])
  }

  /** `s.rstrip()`: the prefix of `s` left after dropping its trailing whitespace. */
  function RStrip(s: string): (r: string)
    ensures |r| <= |s| && r == s[..|r|]
    ensures AllSpace(s[|r|..])
    ensures r == "" || !IsSpace(r[|r| - 1])
  {
    if s != "" && IsSpace(s[|s| - 1]) then
      var r := RStrip(s[..|s| - 1]);
      assert s[|r|..] == s[..|s| - 1][|r|..] + [s[|s| - 1]];
      r
    else s
  }

  /**
   * `r` is the slice of `s` starting at `i`, with only whitespace before it and only
   * whitespace after it.
   */
  predicate TrimmedAt(r: string, s: string, i: int) {
    0 <= i <= |s| - |r| && r == s[i..i + |r|] && AllSpace(s[..i]) && AllSpace(s[i + |r|..])
  }

  /** `r` is `s` with whitespace cut from both ends. */
  predicate TrimmedOf(r: string, s: string) {
    exists i | 0 <= i <= |s| :: TrimmedAt(r, s, i)
  }

  lemma TrimmedOfRStrip(s: string)
    ensures TrimmedOf(RStrip(s), s)
  {
    var r := RStrip(s);
    assert r == s[0..0 + |r|] && s[..0] == [];
    assert TrimmedAt(r, s, 0);
  }

  lemma TrimmedOfSpaceFirst(s: string, r: string)
    requires s != "" && IsSpace(s[0]) && TrimmedOf(r, s[1..])
    ensures TrimmedOf(r, s)
  {
    var t := s[1..];
    var j :| 0 <= j <= |t| && TrimmedAt(r, t, j);
    assert 0 <= j <= |t| - |r| && r == t[j..j + |r|] && AllSpace(t[..j]) && AllSpace(t[j + |r|..]);
    var i := j + 1;
    assert s[..i] == [s[0]] + t[..j];
    AllSpaceCons(s[0], t[..j]);
    assert s[i..i + |r|] == t[j..j + |r|];
    assert s[i + |r|..] == t[j + |r|..];
    assert TrimmedAt(r, s, i);
  }

  lemma AllSpaceCons(c: char, t: string)
    requires IsSpace(c) && AllSpace(t)
    ensures AllSpace([c] + t)
  {
    forall k | 0 <= k < |[c] + t| ensures IsSpace(([c] + t)[k]) {
      if k > 0 {
        assert ([c] + t)[k] == t[k - 1];
      }
    }
  }

  /**
   * `s.strip()`: drops the leading whitespace, then the trailing whitespace. The result
   * has no whitespace at either end; `StripTrimmed` shows it is a slice of `s` with only
   * whitespace around it.
   */
  function Strip(s: string): (r: string)
    ensures |r| <= |s|
    ensures r == "" || (!IsSpace(r[0]) && !IsSpace(r[|r| - 1]))
  {
    if s != "" && IsSpace(s[0]) then Strip(s[1..])
    else
      var r := RStrip(s);
      assert r == "" || r[0] == s[0];
      r
  }

  /** `s.strip()` keeps a slice of `s` and cuts only whitespace before and after it. */
  lemma {:induction false} StripTrimmed(s: string)
    ensures TrimmedOf(Strip(s), s)
  {
    if s != "" && IsSpace(s[0]) {
      StripTrimmed(s[1..]);
      TrimmedOfSpaceFirst(s, Strip(s[1..]));
    } else {
      TrimmedOfRStrip(s);
    }
  }

  /** `s.strip()` is empty exactly when `s` is all whitespace. */
  lemma {:induction false} StripEmptyIffBlank(s: string)
    ensures Strip(s) == "" <==> AllSpace(s)
  {
    if s != "" && IsSpace(s[0]) {
      StripEmptyIffBlank(s[1..]);
      assert AllSpace(s) <==> AllSpace(s[1..]) by {
        assert forall i | 1 <= i < |s| :: s[i] == s[1..][i - 1];
      }
    } else if s != "" {
      assert !AllSpace(s);
    }
  }

  /** `s.strip()` keeps a string that has no whitespace at either end. */
  lemma StripUnpadded(s: string)
    requires s == "" || (!IsSpace(s[0]) && !IsSpace(s[|s| - 1]))
    ensures Strip(s) == s
  {
  }

  // `[p.strip() for p in pieces if p.strip()]`, the idiom for reading a separated list.

  /** The pieces that are not blank, each stripped. */
  function NonBlankStripped(pieces: seq<string>): seq<string> {
    if pieces == [] then []
    else if Strip(pieces[0]) == "" then NonBlankStripped(pieces[1..])
    else [Strip(pieces[0])] + NonBlankStripped(pieces[1..])
  }

  /** A selected name: not empty, with no separator in it, and unchanged by `strip`. */
  predicate SelectedName(w: string, sep: char) {
    w != "" && sep !in w && Strip(w) == w
  }

  predicate AllBlank(pieces: seq<string>) {
    forall j | 0 <= j < |pieces| :: AllSpace(pieces[j])
  }

  /** The kept pieces are non-blank fixed points of `strip` without the separator. */
  lemma {:induction false} NonBlankStrippedNames(pieces: seq<string>, sep: char)
    requires forall j | 0 <= j < |pieces| :: sep !in pieces[j]
    ensures forall i | 0 <= i < |NonBlankStripped(pieces)| :: SelectedName(NonBlankStripped(pieces)[i], sep)
  {
    if pieces != [] {
      var rest := NonBlankStripped(pieces[1..]);
      assert forall j | 0 <= j < |pieces[1..]| :: pieces[1..][j] == pieces[j + 1];
      NonBlankStrippedNames(pieces[1..], sep);
      StrippedParts(pieces[0], sep);
      if Strip(pieces[0]) != "" {
        var r := NonBlankStripped(pieces);
        assert r == [Strip(pieces[0])] + rest;
        assert SelectedName(r[0], sep);
        forall i | 1 <= i < |r| ensures SelectedName(r[i], sep) {
          assert r[i] == rest[i - 1];
        }
      }
    }
  }

  /** Nothing is kept exactly when every piece is blank. */
  lemma {:induction false} NonBlankStrippedEmpty(pieces: seq<string>)
    ensures NonBlankStripped(pieces) == [] <==> AllBlank(pieces)
  {
    if pieces != [] {
      NonBlankStrippedEmpty(pieces[1..]);
      StripEmptyIffBlank(pieces[0]);
      assert forall j | 1 <= j < |pieces| :: pieces[j] == pieces[1..][j - 1];
    }
  }

  /** A name is kept exactly when it is the non-empty strip of some piece. */
  lemma {:induction false} NonBlankStrippedMembers(pieces: seq<string>)
    ensures forall w :: w in NonBlankStripped(pieces) <==>
      w != "" && exists j :: 0 <= j < |pieces| && Strip(pieces[j]) == w
  {
    if pieces != [] {
      NonBlankStrippedMembers(pieces[1..]);
      assert forall j | 1 <= j < |pieces| :: pieces[j] == pieces[1..][j - 1];
      forall w | w != "" && exists j :: 0 <= j < |pieces| && Strip(pieces[j]) == w
        ensures w in NonBlankStripped(pieces)
      {
        var j :| 0 <= j < |pieces| && Strip(pieces[j]) == w;
        if j > 0 {
          assert Strip(pieces[1..][j - 1]) == w;
        }
      }
    }
  }

  /** The kept names of two runs of pieces, one after the other, in their order. */
  lemma {:induction false} NonBlankStrippedAppend(a: seq<string>, b: seq<string>)
    ensures NonBlankStripped(a + b) == NonBlankStripped(a) + NonBlankStripped(b)
  {
    if a != [] {
      assert (a + b)[1..] == a[1..] + b;
      NonBlankStrippedAppend(a[1..], b);
    } else {
      assert a + b == b;
    }
  }

  /** A stripped piece holds no separator the piece lacked, and stripping it again is a no-op. */
  lemma StrippedParts(p: string, c: char)
    requires c !in p
    ensures c !in Strip(p) && Strip(Strip(p)) == Strip(p)
  {
    StripUnpadded(Strip(p));
  }

  /** A word with no separator in it and no whitespace at either end. */
  predicate Token(w: string, sep: char) {
    w != "" && sep !in w && !IsSpace(w[0]) && !IsSpace(w[|w| - 1])
  }

  /** A list of tokens is kept as it is. */
  lemma {:induction false} NonBlankStrippedKeeps(names: seq<string>, sep: char)
    requires forall i | 0 <= i < |names| :: Token(names[i], sep)
    ensures NonBlankStripped(names) == names
  {
    if names != [] {
      StripUnpadded(names[0]);
      NonBlankStrippedKeeps(names[1..], sep);
      assert names == [names[0]] + names[1..];
    }
  }

  /** `s.lstrip(c)`: drops every leading `c`. */
  function LStripChar(s: string, c: char): (r: string)
    ensures |r| <= |s| && r == s[|s| - |r|..]
    ensures forall i :: 0 <= i < |s| - |r| ==> s[i] == c
    ensures r == "" || r[0] != c
  {
    if s != "" && s[0] == c then LStripChar(s[1..], c) else s
  }

  /** `s.rstrip(c)`: drops every trailing `c`. */
  function RStripChar(s: string, c: char): (r: string)
    ensures |r| <= |s| && r == s[..|r|]
    ensures forall i :: |r| <= i < |s| ==> s[i] == c
    ensures r == "" || r[|r| - 1] != c
  {
    if s != "" && s[|s| - 1] == c then RStripChar(s[..|s| - 1], c) else s
  }

  /** Joins `parts` with `sep` between consecutive parts (Python's `sep.join(parts)`). */
  function Join(parts: seq<string>, sep: char): string {
    if |parts| == 0 then ""
    else if |parts| == 1 then parts[0]
    else parts[0] + [sep] + Join(parts[1..], sep)
  }

  /**
   * `s.split(sep)` for a one-character separator: the maximal separator-free pieces,
   * empty pieces included, and always at least one piece.
   */
  function Split(s: string, sep: char): (r: seq<string>)
    ensures |r| >= 1
    ensures forall i :: 0 <= i < |r| ==> sep !in r[i]
  {
    if s == "" then [""]
    else
      var rest := Split(s[1..], sep);
      if s[0] == sep then [""] + rest
      else
        var r := [[s[0]] + rest[0]] + rest[1..];
        assert r[1..] == rest[1..];
        r
  }

  /** Splitting a join of separator-free parts gives the parts back. */
  lemma {:induction false} SplitJoin(parts: seq<string>, sep: char)
    requires |parts| >= 1
    requires forall i :: 0 <= i < |parts| ==> sep !in parts[i]
    ensures Split(Join(parts, sep), sep) == parts
  {
    if |parts| == 1 {
      SplitPiece(parts[0], sep);
    } else {
      SplitJoin(parts[1..], sep);
      SplitPrefix(parts[0], Join(parts[1..], sep), sep);
      assert parts == [parts[0]] + parts[1..];
    }
  }

  /** Joining the pieces of a split gives the text back. */
  lemma {:induction false} JoinSplit(s: string, sep: char)
    ensures Join(Split(s, sep), sep) == s
  {
    if s != "" {
      var rest := Split(s[1..], sep);
      JoinSplit(s[1..], sep);
      if s[0] == sep {
        assert ([""] + rest)[1..] == rest;
      } else {
        var r := [[s[0]] + rest[0]] + rest[1..];
        if |rest| > 1 {
          assert r[1..] == rest[1..];
        }
      }
      assert s == [s[0]] + s[1..];
    }
  }

  lemma {:induction false} SplitPiece(w: string, sep: char)
    requires sep !in w
    ensures Split(w, sep) == [w]
  {
    if w != "" {
      SplitPiece(w[1..], sep);
      assert [w[0]] + w[1..] == w;
    }
  }

  lemma {:induction false} SplitPrefix(w: string, t: string, sep: char)
    requires sep !in w
    ensures Split(w + [sep] + t, sep) == [w] + Split(t, sep)
  {
    if w == "" {
      assert w + [sep] + t == [sep] + t;
      assert ([sep] + t)[1..] == t;
    } else {
      assert (w + [sep] + t)[1..] == w[1..] + [sep] + t;
      SplitPrefix(w[1..], t, sep);
      assert [w[0]] + w[1..] == w;
    }
  }

  /** A character that is not the separator and is in no part is not in the joined text. */
  lemma {:induction false} JoinAvoids(parts: seq<string>, sep: char, c: char)
    requires c != sep && forall i | 0 <= i < |parts| :: c !in parts[i]
    ensures c !in Join(parts, sep)
  {
    if |parts| > 1 {
      JoinAvoids(parts[1..], sep, c);
      assert c !in parts[0] + [sep];
    }
  }

  /** Index of the last occurrence of `c` in `s`, which must occur. */
  function LastIndexOf(s: string, c: char): (i: nat)
    requires c in s
    ensures i < |s| && s[i] == c && c !in s[i + 1..]
  {
    if s[|s| - 1] == c then |s| - 1
    else
      assert c in s[..|s| - 1] by {
        var j :| 0 <= j < |s| && s[j] == c;
        assert s[..|s| - 1][j] == c;
      }
      LastIndexOf(s[..|s| - 1], c)
  }

  /**
   * `s.rsplit(c, maxsplit=1)` when `c` occurs in `s`: the text before and after its last
   * occurrence.
   */
  function RSplitOnce(s: string, c: char): (r: (string, string))
    requires c in s
    ensures s == r.0 + [c] + r.1 && c !in r.1
  {
    var i := LastIndexOf(s, c);
    assert s == s[..i] + [c] + s[i + 1..];
    (s[..i], s[i + 1..])
  }

  /** `rsplit` at a separator that the tail does not contain gives the two sides back. */
  lemma RSplitOnceOf(a: string, b: string, c: char)
    requires c !in b
    ensures c in a + [c] + b
    ensures RSplitOnce(a + [c] + b, c) == (a, b)
  {
    var s := a + [c] + b;
    assert s[|a|] == c;
    var i := LastIndexOf(s, c);
    assert i == |a|;
    assert s[..i] == a && s[i + 1..] == b;
  }

  /** `s.split(c, 1)` when `c` occurs in `s`: the text before and after its first occurrence. */
  function SplitOnce(s: string, c: char): (r: (string, string))
    requires c in s
    ensures s == r.0 + [c] + r.1 && c !in r.0
  {
    if s[0] == c then
      assert s == [] + [c] + s[1..];
      ([], s[1..])
    else
      assert c in s[1..] by {
        var j :| 0 <= j < |s| && s[j] == c;
        assert s[1..][j - 1] == c;
      }
      var (a, b) := SplitOnce(s[1..], c);
      assert s == [s[0]] + s[1..];
      ([s[0]] + a, b)
  }

  /** `split` at a separator that the head does not contain gives the two sides back. */
  lemma {:induction false} SplitOnceOf(a: string, b: string, c: char)
    requires c !in a
    ensures c in a + [c] + b
    ensures SplitOnce(a + [c] + b, c) == (a, b)
  {
    var s := a + [c] + b;
    assert s[|a|] == c;
    if a != [] {
      SplitOnceOf(a[1..], b, c);
      assert s[1..] == a[1..] + [c] + b;
      assert [a[0]] + a[1..] == a;
    }
  }

  function LowerChar(c: char): char {
    if 'A' <= c <= 'Z' then (c as int + 32) as char else c
  }

  /** `s.lower()` on ASCII letters. */
  function Lower(s: string): (r: string)
    ensures |r| == |s| && forall i :: 0 <= i < |s| ==> r[i] == LowerChar(s[i])
  {
    if s == "" then "" else [LowerChar(s[0])] + Lower(s[1..])
  }

  /** Lower-casing twice is lower-casing once. */
  lemma LowerIdempotent(s: string)
    ensures Lower(Lower(s)) == Lower(s)
  {
    assert forall i | 0 <= i < |s| :: Lower(Lower(s))[i] == Lower(s)[i];
  }

  /** Lower-casing commutes with dropping the first or the last character. */
  lemma LowerSlices(s: string)
    requires s != ""
    ensures Lower(s)[1..] == Lower(s[1..])
    ensures Lower(s)[..|s| - 1] == Lower(s[..|s| - 1])
  {
    assert Lower(s) == [LowerChar(s[0])] + Lower(s[1..]);
    var a := Lower(s)[..|s| - 1];
    var b := Lower(s[..|s| - 1]);
    forall i | 0 <= i < |a|
      ensures a[i] == b[i]
    {
    }
  }

  /** Lower-casing leaves whitespace as it is and makes none. */
  lemma LowerCharSpace(c: char)
    ensures IsSpace(LowerChar(c)) <==> IsSpace(c)
  {
  }

  lemma {:induction false} RStripLower(s: string)
    ensures RStrip(Lower(s)) == Lower(RStrip(s))
  {
    if s != "" {
      LowerCharSpace(s[|s| - 1]);
      if IsSpace(s[|s| - 1]) {
        LowerSlices(s);
        RStripLower(s[..|s| - 1]);
      }
    }
  }

  /** Stripping and lower-casing can be done in either order. */
  lemma {:induction false} StripLower(s: string)
    ensures Strip(Lower(s)) == Lower(Strip(s))
  {
    if s != "" {
      LowerCharSpace(s[0]);
      if IsSpace(s[0]) {
        LowerSlices(s);
        StripLower(s[1..]);
      } else {
        RStripLower(s);
      }
    } else {
      RStripLower(s);
    }
  }

  /** Lower-casing commutes with taking the first piece at a separator that is no letter. */
  lemma {:induction false} SplitFirstLower(s: string, sep: char)
    requires !('A' <= sep <= 'Z') && !('a' <= sep <= 'z')
    ensures Split(Lower(s), sep)[0] == Lower(Split(s, sep)[0])
  {
    if s != "" {
      var l := Lower(s);
      LowerSlices(s);
      SplitFirstLower(s[1..], sep);
      assert l[0] == LowerChar(s[0]);
      assert l[0] == sep <==> s[0] == sep;
      if s[0] != sep {
        var w := [s[0]] + Split(s[1..], sep)[0];
        LowerSlices(w);
        assert w[1..] == Split(s[1..], sep)[0];
        assert Split(l, sep)[0] == [l[0]] + Split(l[1..], sep)[0];
        assert Lower(w) == [LowerChar(s[0])] + Lower(Split(s[1..], sep)[0]);
      }
    }
  }

  function EndsWith(s: string, c: char): bool {
    s != "" && s[|s| - 1] == c
  }

  predicate IsDigit(c: char) { '0' <= c <= '9' }

  predicate AllDigits(s: string) {
    forall i :: 0 <= i < |s| ==> IsDigit(s[i])
  }

  function DigitChar(d: nat): (c: char)
    requires d < 10
    ensures IsDigit(c) && c as int - '0' as int == d
  {
    ('0' as int + d) as char
  }

  /** `str(n)` for a natural number: its decimal digits, without leading zeros. */
  function NatToString(n: nat): (r: string)
    ensures |r| >= 1 && AllDigits(r)
    ensures |r| > 1 ==> r[0] != '0'
  {
    if n < 10 then [DigitChar(n)] else NatToString(n / 10) + [DigitChar(n % 10)]
  }

  /** The number a string of decimal digits denotes. */
  function DecimalValue(s: string): nat
    requires AllDigits(s)
  {
    if s == "" then 0
    else DecimalValue(s[..|s| - 1]) * 10 + (s[|s| - 1] as int - '0' as int)
  }

  /** Reading back the decimal form of `n` gives `n`. */
  lemma {:induction false} DecimalRoundTrip(n: nat)
    ensures DecimalValue(NatToString(n)) == n
  {
    if n >= 10 {
      DecimalRoundTrip(n / 10);
      var s := NatToString(n);
      assert s[..|s| - 1] == NatToString(n / 10);
    }
  }

  /** Distinct numbers have distinct decimal forms, so a counter never repeats an id. */
  lemma NatToStringInjective(m: nat, n: nat)
    requires NatToString(m) == NatToString(n)
    ensures m == n
  {
    DecimalRoundTrip(m);
    DecimalRoundTrip(n);
  }

  function Repeat(c: char, k: nat): (r: string)
    ensures |r| == k && forall i :: 0 <= i < k ==> r[i] == c
  {
    if k == 0 then "" else [c] + Repeat(c, k - 1)
  }

  /** `s.zfill(width)` for an unsigned digit string: left-pads with zeros, never truncates. */
  function ZFill(s: string, width: nat): (r: string)
    ensures |r| == if |s| < width then width else |s|
    ensures r == Repeat('0', |r| - |s|) + s
  {
    if |s| < width then Repeat('0', width - |s|) + s else s
  }

  /** Leading zeros do not change the value of a digit string. */
  lemma {:induction false} LeadingZeros(k: nat, s: string)
    requires AllDigits(s)
    ensures AllDigits(Repeat('0', k) + s)
    ensures DecimalValue(Repeat('0', k) + s) == DecimalValue(s)
    decreases |s|, k
  {
    var z := Repeat('0', k);
    if s == "" {
      assert z + s == z;
      if k > 0 {
        assert z[..|z| - 1] == Repeat('0', k - 1) + "";
        LeadingZeros(k - 1, "");
      }
    } else {
      var t := s[..|s| - 1];
      LeadingZeros(k, t);
      assert (z + s)[..|z + s| - 1] == z + t;
    }
  }

  /**
   * `rstrip("/") or default`: the resource path with its trailing slashes removed, or the
   * default when nothing is left.
   */
  function NormalizeResourcePath(path: string, default: string): (r: string)
    requires default != "" && !EndsWith(default, '/')
    ensures r != "" && !EndsWith(r, '/')
    ensures (forall i | 0 <= i < |path| :: path[i] == '/') ==> r == default
    ensures (exists i | 0 <= i < |path| :: path[i] != '/') ==>
      |r| <= |path| && path == r + Repeat('/', |path| - |r|)
  {
    var p := RStripChar(path, '/');
    if p == "" then
      assert forall i | 0 <= i < |path| :: path[i] == '/';
      default
    else
      assert path == p + Repeat('/', |path| - |p|);
      p
  }

  /** Normalising a normalised path changes nothing. */
  lemma NormalizeIdempotent(path: string, default: string)
    requires default != "" && !EndsWith(default, '/')
    ensures NormalizeResourcePath(NormalizeResourcePath(path, default), default)
         == NormalizeResourcePath(path, default)
  {
  }

  /** `f"{resource_path}/{id}"`: the location of a resource; the id can be read back off its end. */
  function Location(resourcePath: string, id: string): (r: string)
    ensures '/' !in id ==> '/' in r && RSplitOnce(r, '/') == (resourcePath, id)
    ensures |r| == |resourcePath| + 1 + |id|
  {
    var r := resourcePath + "/" + id;
    assert r == resourcePath + ['/'] + id;
    if '/' in id then r
    else
      RSplitOnceOf(resourcePath, id, '/');
      r
  }
}
