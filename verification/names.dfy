/** Python's argument-less `str.split()` and the team short name built from it. */
module Names {

  /** The characters Python's `str.split()` treats as separators: the ASCII
      controls 9-13 and 28-31, the space, and the Unicode spaces. */
  predicate IsSpace(c: char)
  {
    var n := c as int;
    (9 <= n <= 13) || (28 <= n <= 32) || n == 0x85 || n == 0xA0 || n == 0x1680
    || (0x2000 <= n <= 0x200A) || n == 0x2028 || n == 0x2029 || n == 0x202F
    || n == 0x205F || n == 0x3000
  }

  /** A non-empty run of non-separator characters. */
  predicate Token(w: string)
  {
    |w| > 0 && forall k :: 0 <= k < |w| ==> !IsSpace(w[k])
  }

  /** s without its leading separators. */
  function TrimStart(s: string): (r: string)
    ensures |r| <= |s| && r == s[|s| - |r|..]
    ensures |r| > 0 ==> !IsSpace(r[0])
    ensures forall k :: 0 <= k < |s| - |r| ==> IsSpace(s[k])
  {
    if |s| > 0 && IsSpace(s[0]) then TrimStart(s[1..]) else s
  }

  /** The longest prefix of s without a separator. */
  function Word(s: string): (w: string)
    ensures |w| <= |s| && w == s[..|w|]
    ensures forall k :: 0 <= k < |w| ==> !IsSpace(w[k])
    ensures |w| < |s| ==> IsSpace(s[|w|])
  {
    if |s| > 0 && !IsSpace(s[0]) then [s[0]] + Word(s[1..]) else []
  }

  /** The maximal runs of non-separators, left to right. */
  function Split(s: string): (tokens: seq<string>)
    ensures forall i :: 0 <= i < |tokens| ==> Token(tokens[i])
  {
    SplitTrimmed(TrimStart(s))
  }

  /** Split of a string that does not start with a separator. */
  function SplitTrimmed(t: string): (tokens: seq<string>)
    requires |t| > 0 ==> !IsSpace(t[0])
    ensures forall i :: 0 <= i < |tokens| ==> Token(tokens[i])
    decreases |t|
  {
    if |t| == 0 then []
    else
      var w := Word(t);
      var rest := SplitTrimmed(TrimStart(t[|w|..]));
      ConsTokens(w, rest);
      [w] + rest
  }

  lemma {:induction false} ConsTokens(w: string, rest: seq<string>)
    requires Token(w) && forall i :: 0 <= i < |rest| ==> Token(rest[i])
    ensures forall i :: 0 <= i < |[w] + rest| ==> Token(([w] + rest)[i])
  {
    forall i | 0 <= i < |[w] + rest|
      ensures Token(([w] + rest)[i])
    {
      if i > 0 {
        assert ([w] + rest)[i] == rest[i - 1];
      }
    }
  }

  /** Tokens joined by single spaces. */
  function Join(tokens: seq<string>): string
  {
    if |tokens| == 0 then ""
    else if |tokens| == 1 then tokens[0]
    else tokens[0] + (" " + Join(tokens[1..]))
  }

  /** The characters of s that are not separators, in order. */
  function NonSpace(s: string): string
  {
    if |s| == 0 then "" else (if IsSpace(s[0]) then "" else [s[0]]) + NonSpace(s[1..])
  }

  /** All tokens run together. */
  function Concat(tokens: seq<string>): string
  {
    if |tokens| == 0 then "" else tokens[0] + Concat(tokens[1..])
  }

  /** The second token when there are at least two, otherwise the whole name
      (src/Classes/FantasyLeague.py). */
  function ShortName(name: string): string
  {
    var tokens := Split(name);
    if |tokens| > 1 then tokens[1] else name
  }

  lemma {:induction false} NonSpaceAppend(a: string, b: string)
    ensures NonSpace(a + b) == NonSpace(a) + NonSpace(b)
  {
    if |a| > 0 {
      assert (a + b)[1..] == a[1..] + b;
      NonSpaceAppend(a[1..], b);
    } else {
      assert a + b == b;
    }
  }

  lemma {:induction false} NonSpaceOfSpaces(s: string)
    requires forall k :: 0 <= k < |s| ==> IsSpace(s[k])
    ensures NonSpace(s) == ""
  {
    if |s| > 0 {
      NonSpaceOfSpaces(s[1..]);
    }
  }

  lemma {:induction false} NonSpaceOfToken(w: string)
    requires forall k :: 0 <= k < |w| ==> !IsSpace(w[k])
    ensures NonSpace(w) == w
  {
    if |w| > 0 {
      NonSpaceOfToken(w[1..]);
    }
  }

  /** Dropping leading separators keeps every other character. */
  lemma {:induction false} TrimStartKeeps(s: string)
    ensures NonSpace(TrimStart(s)) == NonSpace(s)
  {
    var t := TrimStart(s);
    assert s == s[..|s| - |t|] + t;
    NonSpaceAppend(s[..|s| - |t|], t);
    NonSpaceOfSpaces(s[..|s| - |t|]);
  }

  /** Splitting loses exactly the separators: the tokens run together are the
      non-separator characters of the input. */
  lemma {:induction false} SplitKeepsCharacters(s: string)
    ensures Concat(Split(s)) == NonSpace(s)
  {
    TrimStartKeeps(s);
    SplitTrimmedKeeps(TrimStart(s));
  }

  lemma {:induction false} SplitTrimmedKeeps(t: string)
    requires |t| > 0 ==> !IsSpace(t[0])
    ensures Concat(SplitTrimmed(t)) == NonSpace(t)
    decreases |t|
  {
    if |t| > 0 {
      var w := Word(t);
      var rest := t[|w|..];
      assert t == w + rest;
      NonSpaceAppend(w, rest);
      NonSpaceOfToken(w);
      TrimStartKeeps(rest);
      SplitTrimmedKeeps(TrimStart(rest));
      var tokens := SplitTrimmed(t);
      assert tokens == [w] + SplitTrimmed(TrimStart(rest));
      assert tokens[1..] == SplitTrimmed(TrimStart(rest));
    }
  }

  /** A separator in front changes nothing. */
  lemma {:induction false} SplitLeadingSpace(x: string)
    ensures Split(" " + x) == Split(x)
  {
    assert (" " + x)[0] == ' ' && IsSpace(' ');
    assert (" " + x)[1..] == x;
  }

  lemma {:induction false} WordOfToken(w: string, rest: string)
    requires Token(w)
    requires |rest| == 0 || IsSpace(rest[0])
    ensures Word(w + rest) == w
    decreases |w|
  {
    assert (w + rest)[0] == w[0];
    if |w| > 1 {
      assert (w + rest)[1..] == w[1..] + rest;
      WordOfToken(w[1..], rest);
    } else {
      assert (w + rest)[1..] == rest;
    }
  }

  /** A token followed by nothing or by a separator splits off first. */
  lemma {:induction false} SplitCons(w: string, rest: string)
    requires Token(w)
    requires |rest| == 0 || IsSpace(rest[0])
    ensures Split(w + rest) == [w] + Split(rest)
  {
    assert (w + rest)[0] == w[0];
    assert TrimStart(w + rest) == w + rest;
    WordOfToken(w, rest);
    assert (w + rest)[|w|..] == rest;
  }

  /** A token, a space and more text: the token splits off and the space is dropped. */
  lemma {:induction false} SplitConsSpace(w: string, x: string)
    requires Token(w)
    ensures Split(w + (" " + x)) == [w] + Split(x)
  {
    assert (" " + x)[0] == ' ' && IsSpace(' ');
    SplitCons(w, " " + x);
    SplitLeadingSpace(x);
  }

  /** Splitting tokens joined by single spaces gives the tokens back. */
  lemma {:induction false} SplitJoin(tokens: seq<string>)
    requires forall i :: 0 <= i < |tokens| ==> Token(tokens[i])
    ensures Split(Join(tokens)) == tokens
  {
    if |tokens| == 1 {
      SplitOneWord(tokens[0]);
    } else if |tokens| > 1 {
      SplitJoin(tokens[1..]);
      SplitJoinStep(tokens);
    }
  }

  lemma {:induction false} SplitOneWord(w: string)
    requires Token(w)
    ensures Split(Join([w])) == [w]
  {
    assert w + "" == w;
    SplitCons(w, "");
  }

  /** The first token splits off a join of two or more tokens. */
  lemma {:induction false} SplitJoinStep(tokens: seq<string>)
    requires |tokens| > 1 && Token(tokens[0])
    requires Split(Join(tokens[1..])) == tokens[1..]
    ensures Split(Join(tokens)) == tokens
  {
    var head, tail := tokens[0], tokens[1..];
    var rest := Join(tail);
    var joined := Join(tokens);
    assert joined == head + (" " + rest);
    SplitConsSpace(head, rest);
    HeadTail(tokens);
    assert Split(joined) == [head] + Split(rest);
  }

  lemma {:induction false} HeadTail<T>(s: seq<T>)
    requires |s| > 0
    ensures s == [s[0]] + s[1..]
  {
  }

  /** A name of two or more words is shortened to its second word. */
  lemma {:induction false} ShortNameOfWords(tokens: seq<string>)
    requires |tokens| > 1 && forall i :: 0 <= i < |tokens| ==> Token(tokens[i])
    ensures ShortName(Join(tokens)) == tokens[1]
  {
    SplitJoin(tokens);
  }

  /** A one-word name is its own short name. */
  lemma {:induction false} ShortNameOfOneWord(w: string)
    requires Token(w)
    ensures ShortName(w) == w
  {
    SplitOneWord(w);
    assert Join([w]) == w;
  }
}
