/** The reader task's classification of one decoded read into an event for the manager. */
module Classifier {
  import opened Protocol

  /** `char::is_ascii_whitespace`: space, tab, line feed, form feed and carriage return (vertical tab is not). */
  predicate IsAsciiWhitespace(ch: char) {
    ch == ' ' || ch == '\t' || ch == '\n' || ch == '\U{0C}' || ch == '\r'
  }

  /** A token of a command line: non-empty and free of ASCII whitespace. */
  predicate IsWord(w: string) {
    |w| > 0 && forall i :: 0 <= i < |w| ==> !IsAsciiWhitespace(w[i])
  }

  /** Length of the longest prefix of `s` that holds no ASCII whitespace. */
  function WordLength(s: string): (n: nat)
    ensures n <= |s|
    ensures forall i :: 0 <= i < n ==> !IsAsciiWhitespace(s[i])
    ensures n < |s| ==> IsAsciiWhitespace(s[n])
  {
    if s == [] || IsAsciiWhitespace(s[0]) then 0 else 1 + WordLength(s[1..])
  }

  /** `split_ascii_whitespace` collected into a vector: the maximal runs of non-whitespace, in order. */
  function SplitAsciiWhitespace(s: string): (tokens: seq<string>)
    ensures forall k :: 0 <= k < |tokens| ==> IsWord(tokens[k])
    decreases |s|
  {
    if s == [] then []
    else if IsAsciiWhitespace(s[0]) then SplitAsciiWhitespace(s[1..])
    else
      var n := WordLength(s);
      [s[..n]] + SplitAsciiWhitespace(s[n..])
  }

  /** `text.starts_with("/")`. */
  predicate StartsWithSlash(text: string) {
    |text| > 0 && text[0] == '/'
  }

  /** What the reader sends for one decoded read of `client`: a command line when the text starts
      with `/`, a broadcast of the raw text (trailing newline included) otherwise. */
  function Classify(client: ClientId, text: string): (msg: ClientMessage)
    ensures msg.Say? || msg.Command?
    ensures msg.client == client
    ensures !StartsWithSlash(text) ==> msg.Say? && msg.text == text
    ensures msg.Command? ==> forall k :: 0 <= k < |msg.tokens| ==> IsWord(msg.tokens[k])
    ensures StartsWithSlash(text) ==> msg.Command? && |msg.tokens| > 0 && |msg.tokens[0]| > 0 && msg.tokens[0][0] == '/'
    ensures StartsWithSlash(text) ==> msg.tokens == SplitAsciiWhitespace(text)
  {
    if !StartsWithSlash(text) then Say(client, text)
    else
      LeadingToken(text);
      Command(client, SplitAsciiWhitespace(text))
  }

  /** A text that starts with a non-whitespace character yields at least one token, and the first
      token is the text's leading run of non-whitespace. */
  lemma LeadingToken(s: string)
    requires |s| > 0 && !IsAsciiWhitespace(s[0])
    ensures |SplitAsciiWhitespace(s)| > 0
    ensures SplitAsciiWhitespace(s)[0] == s[..WordLength(s)]
    ensures SplitAsciiWhitespace(s)[0][0] == s[0]
  {
  }

  /** The text with every ASCII whitespace character deleted. */
  function Squeeze(s: string): (r: string)
    ensures |r| <= |s|
    ensures forall i :: 0 <= i < |r| ==> !IsAsciiWhitespace(r[i])
  {
    if s == [] then []
    else if IsAsciiWhitespace(s[0]) then Squeeze(s[1..])
    else [s[0]] + Squeeze(s[1..])
  }

  /** The tokens glued back together. */
  function Concat(tokens: seq<string>): string {
    if tokens == [] then [] else tokens[0] + Concat(tokens[1..])
  }

  /** The tokens joined by single spaces. */
  function Unwords(tokens: seq<string>): string {
    if tokens == [] then []
    else if |tokens| == 1 then tokens[0]
    else tokens[0] + " " + Unwords(tokens[1..])
  }

  lemma {:induction false} SqueezeAppend(a: string, b: string)
    ensures Squeeze(a + b) == Squeeze(a) + Squeeze(b)
  {
    if a == [] {
      assert a + b == b;
    } else {
      assert (a + b)[1..] == a[1..] + b;
      SqueezeAppend(a[1..], b);
    }
  }

  lemma {:induction false} SqueezeWord(w: string)
    requires forall i :: 0 <= i < |w| ==> !IsAsciiWhitespace(w[i])
    ensures Squeeze(w) == w
  {
    if w != [] {
      SqueezeWord(w[1..]);
    }
  }

  /** Splitting loses only whitespace: the tokens glued together are the text without its whitespace. */
  lemma {:induction false} SplitDropsOnlyWhitespace(s: string)
    ensures Concat(SplitAsciiWhitespace(s)) == Squeeze(s)
    decreases |s|
  {
    if s == [] {
    } else if IsAsciiWhitespace(s[0]) {
      SplitDropsOnlyWhitespace(s[1..]);
    } else {
      var n := WordLength(s);
      assert s == s[..n] + s[n..];
      SqueezeAppend(s[..n], s[n..]);
      SqueezeWord(s[..n]);
      SplitDropsOnlyWhitespace(s[n..]);
    }
  }

  lemma {:induction false} WordLengthOfWord(w: string, s: string)
    requires forall i :: 0 <= i < |w| ==> !IsAsciiWhitespace(w[i])
    requires s == [] || IsAsciiWhitespace(s[0])
    ensures WordLength(w + s) == |w|
  {
    if w == [] {
      assert w + s == s;
    } else {
      assert (w + s)[1..] == w[1..] + s;
      WordLengthOfWord(w[1..], s);
    }
  }

  /** A word followed by the end of the text or by whitespace is split off as one token. */
  lemma SplitAfterWord(w: string, s: string)
    requires IsWord(w)
    requires s == [] || IsAsciiWhitespace(s[0])
    ensures SplitAsciiWhitespace(w + s) == [w] + SplitAsciiWhitespace(s)
  {
    WordLengthOfWord(w, s);
    assert (w + s)[..|w|] == w;
    assert (w + s)[|w|..] == s;
  }

  /** Every ASCII whitespace character separates tokens: the text on either side of it splits on its
      own, wherever it stands (leading, trailing, or inside a run of whitespace). */
  lemma {:induction false} SplitAtWhitespace(a: string, x: char, b: string)
    requires IsAsciiWhitespace(x)
    ensures SplitAsciiWhitespace(a + [x] + b) == SplitAsciiWhitespace(a) + SplitAsciiWhitespace(b)
    decreases |a|
  {
    if a == [] {
      assert a + [x] + b == [x] + b;
      assert ([x] + b)[1..] == b;
    } else if IsAsciiWhitespace(a[0]) {
      assert (a + [x] + b)[0] == a[0];
      assert (a + [x] + b)[1..] == a[1..] + [x] + b;
      SplitAtWhitespace(a[1..], x, b);
    } else {
      var n := WordLength(a);
      var w, r := a[..n], a[n..];
      assert a == w + r;
      assert a + [x] + b == w + (r + [x] + b);
      if n == |a| {
        assert a + [x] + b == w + ([x] + b);
        SplitAfterWord(w, [x] + b);
        assert ([x] + b)[0] == x && ([x] + b)[1..] == b;
        SplitAfterWord(w, []);
        assert w + [] == a;
      } else {
        SplitAfterWord(w, r + [x] + b);
        SplitAtWhitespace(r, x, b);
      }
    }
  }

  /** Splitting undoes joining with single spaces: every list of words survives the round trip. */
  lemma {:induction false} SplitUnwords(tokens: seq<string>)
    requires forall k :: 0 <= k < |tokens| ==> IsWord(tokens[k])
    ensures SplitAsciiWhitespace(Unwords(tokens)) == tokens
  {
    if tokens == [] {
    } else if |tokens| == 1 {
      SplitAfterWord(tokens[0], []);
      assert tokens[0] + [] == tokens[0];
    } else {
      var rest := " " + Unwords(tokens[1..]);
      assert Unwords(tokens) == tokens[0] + rest;
      SplitAfterWord(tokens[0], rest);
      assert rest[1..] == Unwords(tokens[1..]);
      SplitUnwords(tokens[1..]);
    }
  }
}
