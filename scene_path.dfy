/**
 * The scene-path parser of src/main.rs: a glTF path may end in `#Scene<N>` to pick
 * the N-th scene of the file. The parser splits on `#`, looks at the last piece only,
 * and falls back to the whole path with scene 0.
 */
module ScenePath {
  import opened Wrappers

  const Separator: char := '#'

  /** One more than `usize::MAX` on a 64-bit target. */
  const UsizeLimit: nat := 0x1_0000_0000_0000_0000

  // ---------------------------------------------------------------------------
  // The string operations the parser is built from
  // ---------------------------------------------------------------------------

  /**
   * `str::split(sep)`: the runs of characters between occurrences of `sep`, left to
   * right. The empty string gives one empty piece, and neighbouring separators give
   * an empty piece between them.
   */
  function Split(s: string, sep: char): (parts: seq<string>)
    ensures |parts| >= 1
    ensures forall i :: 0 <= i < |parts| ==> sep !in parts[i]
  {
    if |s| == 0 then [""]
    else
      var rest := Split(s[1..], sep);
      if s[0] == sep then [""] + rest
      else [[s[0]] + rest[0]] + rest[1..]
  }

  /** `[&str]::join(sep)`: the pieces with one `sep` between neighbours. */
  function Join(parts: seq<string>, sep: char): (r: string)
    ensures |parts| > 0 ==> parts[0] <= r
    ensures |parts| > 1 ==> |parts[0]| < |r| && r[|parts[0]|] == sep
  {
    if |parts| == 0 then ""
    else if |parts| == 1 then parts[0]
    else parts[0] + [sep] + Join(parts[1..], sep)
  }

  /** `<[T]>::split_last`: the last element and everything before it, if any. */
  function SplitLast<T>(xs: seq<T>): (r: Option<(T, seq<T>)>)
    ensures r.Some? <==> |xs| > 0
    ensures r.Some? ==> r.value.1 + [r.value.0] == xs
  {
    if |xs| == 0 then None else Some((xs[|xs| - 1], xs[..|xs| - 1]))
  }

  /** `str::strip_prefix`: what follows `prefix`, when `s` starts with it. */
  function StripPrefix(s: string, prefix: string): (r: Option<string>)
    ensures r.Some? <==> prefix <= s
    ensures r.Some? ==> prefix + r.value == s
  {
    if prefix <= s then Some(s[|prefix|..]) else None
  }

  predicate IsDigit(c: char) {
    '0' <= c <= '9'
  }

  predicate AllDigits(s: string) {
    forall i :: 0 <= i < |s| ==> IsDigit(s[i])
  }

  function DigitValue(c: char): (d: nat)
    requires IsDigit(c)
    ensures d < 10
  {
    c as int - '0' as int
  }

  function DigitChar(d: nat): (c: char)
    requires d < 10
    ensures IsDigit(c) && DigitValue(c) == d
  {
    ('0' as int + d) as char
  }

  /** The number a string of decimal digits denotes, most significant digit first. */
  function DecimalValue(ds: string): nat
    requires AllDigits(ds)
  {
    if |ds| == 0 then 0 else DecimalValue(ds[..|ds| - 1]) * 10 + DigitValue(ds[|ds| - 1])
  }

  /** The decimal representation of `n`, without leading zeros. */
  function Digits(n: nat): (ds: string)
    ensures |ds| > 0 && AllDigits(ds)
  {
    if n < 10 then [DigitChar(n)] else Digits(n / 10) + [DigitChar(n % 10)]
  }

  /**
   * `<usize as FromStr>::from_str(s).ok()`: an optional leading `+`, then one or more
   * ASCII digits (leading zeros allowed) whose value fits in 64 bits. A `-` sign, a
   * lone `+`, the empty string and any other character are rejected.
   */
  function ParseUsize(s: string): (r: Option<nat>)
    ensures r.Some? ==> r.value < UsizeLimit
    ensures r.Some? ==> |s| > 0 && (IsDigit(s[0]) || s[0] == '+')
    ensures r.Some? ==> var d := if s[0] == '+' then s[1..] else s;
                        |d| > 0 && AllDigits(d) && r.value == DecimalValue(d)
  {
    var digits := if |s| > 0 && s[0] == '+' then s[1..] else s;
    if |digits| > 0 && AllDigits(digits) && DecimalValue(digits) < UsizeLimit then
      Some(DecimalValue(digits))
    else
      None
  }

  /** The scene index a last path piece selects: `Scene` followed by a `usize`. */
  function SceneIndex(segment: string): (r: Option<nat>)
    ensures "Scene" <= segment ==> r == ParseUsize(segment[5..])
    ensures !("Scene" <= segment) ==> r.None?
    ensures r.Some? ==> r.value < UsizeLimit
  {
    match StripPrefix(segment, "Scene")
    case None => None
    case Some(index) => ParseUsize(index)
  }

  // ---------------------------------------------------------------------------
  // The parser (src/main.rs:71-84)
  // ---------------------------------------------------------------------------

  /**
   * `_parse_scene`: the path of the glTF file and the index of the scene to show.
   * Its properties are the lemmas below.
   */
  function ParseScene(scenePath: string): (r: (string, nat))
    ensures Separator !in scenePath ==> r == (scenePath, 0)
    ensures r.1 != 0 ==> Separator in scenePath && r.1 < UsizeLimit
  {
    if Separator in scenePath then
      var gltfAndScene := Split(scenePath, Separator);
      match SplitLast(gltfAndScene)
      case Some((last, path)) =>
        (match SceneIndex(last)
         case Some(index) => (Join(path, Separator), index)
         case None => (scenePath, 0))
      case None => (scenePath, 0)
    else
      (scenePath, 0)
  }

  /** The position of the first occurrence of `c` in `s`. */
  function FirstIndex(s: string, c: char): (k: nat)
    requires c in s
    ensures k < |s| && s[k] == c && c !in s[..k]
  {
    if s[0] == c then 0
    else
      var k := FirstIndex(s[1..], c);
      assert s[..k + 1] == [s[0]] + s[1..][..k];
      k + 1
  }

  /** The position of the last occurrence of `c` in `s`. */
  function LastIndex(s: string, c: char): (k: nat)
    requires c in s
    ensures k < |s| && s[k] == c && c !in s[k + 1..]
  {
    if s[|s| - 1] == c then |s| - 1 else LastIndex(s[..|s| - 1], c)
  }

  // ---------------------------------------------------------------------------
  // Lemmas about splitting and joining
  // ---------------------------------------------------------------------------

  /** A string without the separator is one piece. */
  lemma {:induction false} SplitWithoutSeparator(s: string, sep: char)
    requires sep !in s
    ensures Split(s, sep) == [s]
  {
    if |s| > 0 {
      SplitWithoutSeparator(s[1..], sep);
      assert s == [s[0]] + s[1..];
    }
  }

  /** Appending a separator and a separator-free piece appends exactly that piece. */
  lemma {:induction false} SplitSnoc(a: string, sep: char, b: string)
    requires sep !in b
    ensures Split(a + [sep] + b, sep) == Split(a, sep) + [b]
  {
    if |a| == 0 {
      assert a + [sep] + b == [sep] + b;
      assert ([sep] + b)[1..] == b;
      SplitWithoutSeparator(b, sep);
    } else {
      SplitSnoc(a[1..], sep, b);
      assert (a + [sep] + b)[1..] == a[1..] + [sep] + b;
      assert (a + [sep] + b)[0] == a[0];
    }
  }

  /** A separator-free piece, a separator and a tail split into that piece and the tail's pieces. */
  lemma {:induction false} SplitCons(a: string, sep: char, c: string)
    requires sep !in a
    ensures Split(a + [sep] + c, sep) == [a] + Split(c, sep)
  {
    var s := a + [sep] + c;
    if |a| == 0 {
      assert s == [sep] + c;
      assert s[1..] == c;
    } else {
      SplitCons(a[1..], sep, c);
      assert s[1..] == a[1..] + [sep] + c;
      assert s[0] == a[0];
      assert a == [a[0]] + a[1..];
    }
  }

  /** Splitting the join of separator-free pieces gives back the pieces. */
  lemma {:induction false} SplitJoin(parts: seq<string>, sep: char)
    requires |parts| > 0
    requires forall i :: 0 <= i < |parts| ==> sep !in parts[i]
    ensures Split(Join(parts, sep), sep) == parts
  {
    if |parts| == 1 {
      SplitWithoutSeparator(parts[0], sep);
    } else {
      var rest := parts[1..];
      SplitJoin(rest, sep);
      SplitCons(parts[0], sep, Join(rest, sep));
      assert parts == [parts[0]] + rest;
    }
  }

  /** Joining the pieces of a split gives back the string. */
  lemma {:induction false} JoinSplit(s: string, sep: char)
    ensures Join(Split(s, sep), sep) == s
    decreases |s|
  {
    if sep !in s {
      SplitWithoutSeparator(s, sep);
    } else {
      var k := FirstIndex(s, sep);
      var a, c := s[..k], s[k + 1..];
      assert s == a + [sep] + c;
      SplitCons(a, sep, c);
      JoinSplit(c, sep);
      var parts := [a] + Split(c, sep);
      assert parts[1..] == Split(c, sep);
    }
  }

  // ---------------------------------------------------------------------------
  // Lemmas about numbers
  // ---------------------------------------------------------------------------

  /** `Digits` is read back as the number it was made from. */
  lemma {:induction false} DecimalValueOfDigits(n: nat)
    ensures DecimalValue(Digits(n)) == n
  {
    if n >= 10 {
      DecimalValueOfDigits(n / 10);
      var ds := Digits(n);
      assert ds[..|ds| - 1] == Digits(n / 10);
    }
  }

  /** The decimal representation of `n` parses to `n` exactly when `n` fits in a `usize`. */
  lemma ParseUsizeOfDigits(n: nat)
    ensures ParseUsize(Digits(n)) == if n < UsizeLimit then Some(n) else None
  {
    DecimalValueOfDigits(n);
  }

  /** A leading `+` is accepted. */
  lemma ParseUsizeOfSignedDigits(n: nat)
    ensures ParseUsize("+" + Digits(n)) == if n < UsizeLimit then Some(n) else None
  {
    DecimalValueOfDigits(n);
    assert ("+" + Digits(n))[1..] == Digits(n);
  }

  /** Any character other than a digit, past an optional leading `+`, is rejected. */
  lemma ParseUsizeRejectsNonDigit(s: string, i: nat)
    requires i < |s| && !IsDigit(s[i]) && !(i == 0 && s[0] == '+')
    ensures ParseUsize(s) == None
  {
    if |s| > 0 && s[0] == '+' {
      assert s[1..][i - 1] == s[i];
    }
  }

  /** A leading zero does not change the value a digit string denotes. */
  lemma {:induction false} DecimalValueLeadingZero(ds: string)
    requires AllDigits(ds)
    ensures AllDigits("0" + ds) && DecimalValue("0" + ds) == DecimalValue(ds)
    decreases |ds|
  {
    if |ds| > 0 {
      var front := ds[..|ds| - 1];
      DecimalValueLeadingZero(front);
      assert ("0" + ds)[..|ds|] == "0" + front;
    }
  }

  /** Leading zeros are accepted and ignored: `007` parses to 7. */
  lemma ParseUsizeLeadingZero(ds: string)
    requires |ds| > 0 && ds[0] != '+'
    ensures ParseUsize("0" + ds) == ParseUsize(ds)
  {
    if AllDigits(ds) {
      DecimalValueLeadingZero(ds);
    } else {
      var i :| 0 <= i < |ds| && !IsDigit(ds[i]);
      assert ("0" + ds)[i + 1] == ds[i];
      ParseUsizeRejectsNonDigit("0" + ds, i + 1);
      ParseUsizeRejectsNonDigit(ds, i);
    }
  }

  // ---------------------------------------------------------------------------
  // Lemmas about the parser
  // ---------------------------------------------------------------------------

  /** A path without `#` comes back unchanged, with scene 0. */
  lemma ParseSceneWithoutSeparator(s: string)
    requires Separator !in s
    ensures ParseScene(s) == (s, 0)
  {
  }

  /**
   * Only the last `#`-piece is looked at: when it selects a scene, everything before
   * the last `#` is the path, earlier `#` and `Scene<K>` pieces included; otherwise
   * the input is returned whole with scene 0.
   */
  lemma {:induction false} ParseSceneLastPiece(p: string, t: string)
    requires Separator !in t
    ensures ParseScene(p + "#" + t) ==
              match SceneIndex(t)
              case Some(n) => (p, n)
              case None => (p + "#" + t, 0)
  {
    var s := p + "#" + t;
    assert s[|p|] == Separator;
    SplitSnoc(p, Separator, t);
    JoinSplit(p, Separator);
    var parts := Split(p, Separator) + [t];
    assert SplitLast(parts) == Some((t, Split(p, Separator)));
  }

  /**
   * An independent statement of the parser, by the position of the last `#`: the
   * scene is taken from what follows it, and the path is what precedes it.
   */
  lemma ParseSceneByLastSeparator(s: string)
    ensures ParseScene(s) ==
              if Separator !in s then (s, 0)
              else
                var k := LastIndex(s, Separator);
                match SceneIndex(s[k + 1..])
                case Some(n) => (s[..k], n)
                case None => (s, 0)
  {
    if Separator in s {
      var k := LastIndex(s, Separator);
      assert s == s[..k] + "#" + s[k + 1..];
      ParseSceneLastPiece(s[..k], s[k + 1..]);
    }
  }

  /**
   * The returned path is a prefix of the input. It is shorter exactly when a scene
   * was selected, and then it is the input up to, not including, the last `#`.
   */
  lemma ParseScenePathIsPrefix(s: string)
    ensures ParseScene(s).0 <= s
    ensures ParseScene(s).0 == s ==> ParseScene(s).1 == 0
    ensures ParseScene(s).0 != s ==>
              Separator in s && ParseScene(s).0 == s[..LastIndex(s, Separator)]
              && SceneIndex(s[LastIndex(s, Separator) + 1..]) == Some(ParseScene(s).1)
  {
    if Separator in s {
      var k := LastIndex(s, Separator);
      var p, t := s[..k], s[k + 1..];
      assert s == p + "#" + t;
      ParseSceneLastPiece(p, t);
      match SceneIndex(t)
      case Some(n) =>
        assert ParseScene(s) == (p, n);
        assert |p| < |s|;
      case None =>
        assert ParseScene(s) == (s, 0);
    } else {
      ParseSceneWithoutSeparator(s);
    }
  }

  /** `Scene` followed by decimal digits has no `#` and selects what the digits parse to. */
  lemma ScenePieceOfDigits(n: nat)
    ensures Separator !in "Scene" + Digits(n)
    ensures SceneIndex("Scene" + Digits(n)) == if n < UsizeLimit then Some(n) else None
  {
    var ds := Digits(n);
    var t := "Scene" + ds;
    forall i | 0 <= i < |t| ensures t[i] != Separator {
      if i >= 5 {
        assert t[i] == ds[i - 5];
      }
    }
    assert t[5..] == ds;
    ParseUsizeOfDigits(n);
  }

  /** Appending `#Scene<n>` to any path selects scene `n` and gives the path back. */
  lemma ParseSceneRoundTrip(p: string, n: nat)
    requires n < UsizeLimit
    ensures ParseScene(p + "#Scene" + Digits(n)) == (p, n)
  {
    var t := "Scene" + Digits(n);
    ScenePieceOfDigits(n);
    assert SceneIndex(t) == Some(n);
    assert p + "#Scene" + Digits(n) == p + "#" + t;
    ParseSceneLastPiece(p, t);
  }

  /** An index that overflows a `usize` selects nothing: the input is kept, scene 0. */
  lemma ParseSceneOverflow(p: string, n: nat)
    requires n >= UsizeLimit
    ensures ParseScene(p + "#Scene" + Digits(n)) == (p + "#Scene" + Digits(n), 0)
  {
    var t := "Scene" + Digits(n);
    ScenePieceOfDigits(n);
    assert SceneIndex(t) == None;
    assert p + "#Scene" + Digits(n) == p + "#" + t;
    ParseSceneLastPiece(p, t);
  }

  /**
   * A last piece that does not start with `Scene`, or whose remainder is not a
   * `usize`, leaves the input whole with scene 0.
   */
  lemma ParseSceneRejectsLastPiece(p: string, t: string)
    requires Separator !in t
    requires !("Scene" <= t) || ParseUsize(t[5..]) == None
    ensures ParseScene(p + "#" + t) == (p + "#" + t, 0)
  {
    ParseSceneLastPiece(p, t);
  }
}
