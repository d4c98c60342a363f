/** Byte-string helpers: trimming, splitting, joining, prefixes. */
module Text {
  import opened Basics

  /** The ASCII part of `char::is_whitespace`. */
  predicate IsSpace(c: char) { c == ' ' || '\t' <= c <= '\r' }

  function TrimStart(s: string): string {
    if s != "" && IsSpace(s[0]) then TrimStart(s[1..]) else s
  }

  function TrimEnd(s: string): string {
    if s != "" && IsSpace(s[|s| - 1]) then TrimEnd(s[..|s| - 1]) else s
  }

  function Trim(s: string): string { TrimEnd(TrimStart(s)) }

  function StripPrefix(s: string, prefix: string): Option<string> {
    if prefix <= s then Some(s[|prefix|..]) else None
  }

  lemma StripPrefixOfConcat(prefix: string, rest: string)
    ensures StripPrefix(prefix + rest, prefix) == Some(rest)
  {
    assert prefix <= prefix + rest;
    assert (prefix + rest)[|prefix|..] == rest;
  }

  /** `trim_start_matches('/')`. */
  function TrimSlashes(s: string): string {
    if s != "" && s[0] == '/' then TrimSlashes(s[1..]) else s
  }

  function Slashes(n: nat): string { seq(n, i => '/') }

  /** What is cut off is a run of slashes, all that the text starts with. */
  lemma {:induction false} TrimSlashesExact(s: string) returns (n: nat)
    ensures s == Slashes(n) + TrimSlashes(s)
    ensures TrimSlashes(s) != "" ==> TrimSlashes(s)[0] != '/'
  {
    n := 0;
    if s != "" && s[0] == '/' {
      var m := TrimSlashesExact(s[1..]);
      n := m + 1;
      assert Slashes(n) == "/" + Slashes(m);
      assert s == "/" + s[1..];
    }
  }

  lemma {:induction false} TrimSlashesOf(n: nat, rest: string)
    requires rest != "" ==> rest[0] != '/'
    ensures TrimSlashes(Slashes(n) + rest) == rest
  {
    if n == 0 {
      assert Slashes(0) + rest == rest;
    } else {
      TrimSlashesOf(n - 1, rest);
      assert (Slashes(n) + rest)[1..] == Slashes(n - 1) + rest;
    }
  }

  /** Index of the first `c`, or `|s|`. */
  function IndexOf(s: string, c: char): (i: nat)
    ensures i <= |s|
    ensures forall j :: 0 <= j < i ==> s[j] != c
    ensures i < |s| ==> s[i] == c
  {
    if s == "" || s[0] == c then 0 else 1 + IndexOf(s[1..], c)
  }

  /** `str::split_once`. */
  function SplitOnce(s: string, c: char): Option<(string, string)> {
    var i := IndexOf(s, c);
    if i < |s| then Some((s[..i], s[i + 1..])) else None
  }

  lemma SplitOnceAt(a: string, c: char, b: string)
    requires forall i :: 0 <= i < |a| ==> a[i] != c
    ensures SplitOnce(a + [c] + b, c) == Some((a, b))
  {
    var s := a + [c] + b;
    assert s[|a|] == c;
    assert IndexOf(s, c) == |a|;
    assert s[..|a|] == a && s[|a| + 1..] == b;
  }

  /** `str::split`: always at least one piece. */
  function Split(s: string, c: char): (parts: seq<string>)
    ensures parts != []
    decreases |s|
  {
    match SplitOnce(s, c)
    case None => [s]
    case Some((a, b)) => [a] + Split(b, c)
  }

  lemma SplitNone(s: string, c: char)
    requires forall i :: 0 <= i < |s| ==> s[i] != c
    ensures SplitOnce(s, c) == None && Split(s, c) == [s]
  {
  }

  function Join(parts: seq<string>, sep: string): string {
    if |parts| == 0 then ""
    else if |parts| == 1 then parts[0]
    else parts[0] + sep + Join(parts[1..], sep)
  }

  ghost predicate Lacks(s: string, c: char) { forall i :: 0 <= i < |s| ==> s[i] != c }

  /** The pieces hold no separator and make up the text again. */
  lemma {:induction false} SplitExact(s: string, c: char)
    ensures forall p :: p in Split(s, c) ==> Lacks(p, c)
    ensures Join(Split(s, c), [c]) == s
    decreases |s|
  {
    match SplitOnce(s, c) {
      case None =>
      case Some((a, b)) =>
        SplitExact(b, c);
        var parts := Split(b, c);
        assert ([a] + parts)[1..] == parts;
        assert s == a + [c] + b;
    }
  }

  /** `str::split_whitespace`: the maximal runs of non-space characters. */
  function Words(s: string): (ws: seq<string>)
    decreases |s|
  {
    if s == "" then []
    else if IsSpace(s[0]) then Words(s[1..])
    else
      var n := WordLength(s);
      [s[..n]] + Words(s[n..])
  }

  function WordLength(s: string): (n: nat)
    ensures n <= |s|
    ensures forall i :: 0 <= i < n ==> !IsSpace(s[i])
    ensures n < |s| ==> IsSpace(s[n])
    ensures s != "" && !IsSpace(s[0]) ==> n > 0
  {
    if s == "" || IsSpace(s[0]) then 0 else 1 + WordLength(s[1..])
  }

  predicate IsWord(w: string) { w != "" && forall i :: 0 <= i < |w| ==> !IsSpace(w[i]) }

  lemma WordsAreWords(s: string)
    ensures forall w :: w in Words(s) ==> IsWord(w)
    decreases |s|
  {
    if s != "" {
      if IsSpace(s[0]) { WordsAreWords(s[1..]); } else { WordsAreWords(s[WordLength(s)..]); }
    }
  }

  lemma WordsOfOne(w: string)
    requires IsWord(w)
    ensures Words(w) == [w]
  {
    assert WordLength(w) == |w|;
    assert w[..|w|] == w && w[|w|..] == "";
    assert Words("") == [];
  }

  lemma WordsOfCons(w: string, rest: string)
    requires IsWord(w)
    ensures Words(w + " " + rest) == [w] + Words(rest)
  {
    var s := w + " " + rest;
    assert s[0] == w[0] && forall i :: 0 <= i < |w| ==> s[i] == w[i];
    assert s[|w|] == ' ';
    assert WordLength(s) == |w|;
    var tail := s[|w|..];
    assert s[..|w|] == w && tail[0] == ' ' && tail[1..] == rest;
    assert Words(tail) == Words(rest);
  }

  /** Joining words with single spaces and splitting again gives the words back. */
  lemma {:induction false} WordsOfJoin(ws: seq<string>)
    requires forall w :: w in ws ==> IsWord(w)
    ensures Words(Join(ws, " ")) == ws
  {
    if |ws| == 1 {
      WordsOfOne(ws[0]);
    } else if |ws| > 1 {
      WordsOfJoin(ws[1..]);
      WordsOfCons(ws[0], Join(ws[1..], " "));
    }
  }
}
