/** Python's argument-less str.split, str.strip and str.lower, restricted
    to ASCII: the whitespace set is the one str.isspace accepts below 128
    (tab, line feed, vertical tab, form feed, carriage return, the four
    information separators 0x1C..0x1F and space); the letters are A..Z. */
module Text {

  predicate IsSpace(c: char) {
    var n := c as int;
    n == 32 || 9 <= n <= 13 || 28 <= n <= 31
  }

  predicate IsUpper(c: char) {
    'A' <= c <= 'Z'
  }

  /** No character of s is whitespace. */
  predicate NoSpace(s: string) {
    forall k :: 0 <= k < |s| ==> !IsSpace(s[k])
  }

  /** Every character of s is whitespace. */
  predicate AllSpace(s: string) {
    forall k :: 0 <= k < |s| ==> IsSpace(s[k])
  }

  /** s neither starts nor ends with whitespace. */
  predicate Trimmed(s: string) {
    s == [] || (!IsSpace(s[0]) && !IsSpace(s[|s| - 1]))
  }

  /** No character of s is an upper-case letter. */
  predicate NoUpper(s: string) {
    forall k :: 0 <= k < |s| ==> !IsUpper(s[k])
  }

  // ---------------------------------------------------------------- strip

  /** The number of whitespace characters s starts with. */
  function LeadingSpaces(s: string): (n: nat)
    ensures n <= |s|
    ensures forall k :: 0 <= k < n ==> IsSpace(s[k])
    ensures n < |s| ==> !IsSpace(s[n])
  {
    if s == [] || !IsSpace(s[0]) then 0 else 1 + LeadingSpaces(s[1..])
  }

  /** The number of whitespace characters s ends with. */
  function TrailingSpaces(s: string): (n: nat)
    ensures n <= |s|
    ensures forall k :: |s| - n <= k < |s| ==> IsSpace(s[k])
    ensures n < |s| ==> !IsSpace(s[|s| - 1 - n])
  {
    if s == [] || !IsSpace(s[|s| - 1]) then 0 else 1 + TrailingSpaces(s[..|s| - 1])
  }

  /** str.strip(): s with its leading and trailing whitespace removed.  The
      result is trimmed, and a string that is already trimmed is left as it
      is (StripFactor says what is cut off). */
  function Strip(s: string): (r: string)
    ensures Trimmed(r)
    ensures Trimmed(s) ==> r == s
  {
    var i := LeadingSpaces(s);
    if i == |s| then [] else s[i..|s| - TrailingSpaces(s)]
  }

  /** r is the factor of s that starts at i, and everything of s before
      and after it is whitespace. */
  ghost predicate StrippedAt(s: string, r: string, i: nat) {
    i + |r| <= |s| && r == s[i..i + |r|] && AllSpace(s[..i]) && AllSpace(s[i + |r|..])
  }

  /** Strip cuts off whitespace only: its result is a factor of s with
      whitespace on either side. */
  lemma StripFactor(s: string)
    ensures exists i: nat :: StrippedAt(s, Strip(s), i)
  {
    var i := LeadingSpaces(s);
    if i == |s| {
      assert StrippedAt(s, Strip(s), 0);
    } else {
      assert StrippedAt(s, Strip(s), i);
    }
  }

  lemma {:induction false} LeadingSpacesOf(pre: string, rest: string)
    requires AllSpace(pre) && (rest == [] || !IsSpace(rest[0]))
    ensures LeadingSpaces(pre + rest) == |pre|
    decreases |pre|
  {
    if pre == [] {
      assert pre + rest == rest;
    } else {
      assert (pre + rest)[1..] == pre[1..] + rest;
      LeadingSpacesOf(pre[1..], rest);
    }
  }

  lemma {:induction false} TrailingSpacesOf(rest: string, post: string)
    requires AllSpace(post) && (rest == [] || !IsSpace(rest[|rest| - 1]))
    ensures TrailingSpaces(rest + post) == |post|
    decreases |post|
  {
    if post == [] {
      assert rest + post == rest;
    } else {
      var s := rest + post;
      assert s[..|s| - 1] == rest + post[..|post| - 1];
      TrailingSpacesOf(rest, post[..|post| - 1]);
    }
  }

  /** Strip removes exactly the surrounding whitespace: a non-empty trimmed
      string padded with whitespace on either side strips back to itself. */
  lemma StripPadded(pre: string, w: string, post: string)
    requires AllSpace(pre) && AllSpace(post) && w != [] && Trimmed(w)
    ensures Strip(pre + w + post) == w
  {
    var s := pre + w + post;
    assert s == pre + (w + post);
    LeadingSpacesOf(pre, w + post);
    assert s == (pre + w) + post;
    TrailingSpacesOf(pre + w, post);
    assert s[|pre|..|s| - |post|] == w;
  }

  /** A string without whitespace is its own strip. */
  lemma StripNoSpace(s: string)
    requires NoSpace(s)
    ensures Strip(s) == s
  {
  }

  // ---------------------------------------------------------------- lower

  function LowerChar(c: char): (d: char)
  {
    if IsUpper(c) then (c as int + 32) as char else c
  }

  /** str.lower() on ASCII: every upper-case letter becomes its lower-case
      counterpart and every other character is kept, so whitespace stays
      where it was. */
  function Lower(s: string): (r: string)
    ensures |r| == |s| && NoUpper(r)
    ensures Trimmed(s) ==> Trimmed(r)
    ensures NoUpper(s) ==> r == s
  {
    seq(|s|, k requires 0 <= k < |s| => LowerChar(s[k]))
  }

  /** Lower changes each upper-case letter into the letter 32 code points
      further on and keeps every other character, whitespace included. */
  lemma LowerChars(s: string)
    ensures forall k :: 0 <= k < |s| && !IsUpper(s[k]) ==> Lower(s)[k] == s[k]
    ensures forall k :: 0 <= k < |s| && IsUpper(s[k]) ==> Lower(s)[k] as int == s[k] as int + 32
    ensures forall k :: 0 <= k < |s| ==> (IsSpace(Lower(s)[k]) <==> IsSpace(s[k]))
  {
  }

  // ---------------------------------------------------------------- split

  /** The length of the run of non-whitespace characters that s starts with. */
  function WordLength(s: string): (n: nat)
    ensures n <= |s| && NoSpace(s[..n])
    ensures n == |s| || IsSpace(s[n])
  {
    if s == [] || IsSpace(s[0]) then 0 else 1 + WordLength(s[1..])
  }

  /** str.split() with no separator: the maximal runs of non-whitespace
      characters, in order.  Every field is non-empty and holds no
      whitespace. */
  function Split(s: string): (r: seq<string>)
    ensures forall k :: 0 <= k < |r| ==> r[k] != [] && NoSpace(r[k])
    decreases |s|
  {
    if s == [] then []
    else if IsSpace(s[0]) then Split(s[1..])
    else
      var n := WordLength(s);
      [s[..n]] + Split(s[n..])
  }

  /** Seps can stand between the words: one non-empty run of whitespace
      between each two neighbouring words. */
  predicate Separators(words: seq<string>, seps: seq<string>) {
    |seps| == (if words == [] then 0 else |words| - 1) &&
    forall k :: 0 <= k < |seps| ==> seps[k] != [] && AllSpace(seps[k])
  }

  /** The words with seps[k] between words[k] and words[k + 1]: the inverse
      of Split on words that are non-empty and free of whitespace (see
      SplitJoin). */
  function JoinWith(words: seq<string>, seps: seq<string>): (s: string)
    requires Separators(words, seps)
    decreases |words|
  {
    if words == [] then []
    else if |words| == 1 then words[0]
    else words[0] + seps[0] + JoinWith(words[1..], seps[1..])
  }

  /** Every word is a legal field of Split. */
  predicate Words(words: seq<string>) {
    forall k :: 0 <= k < |words| ==> words[k] != [] && NoSpace(words[k])
  }

  lemma {:induction false} WordLengthOfWord(w: string, rest: string)
    requires NoSpace(w)
    requires rest == [] || IsSpace(rest[0])
    ensures WordLength(w + rest) == |w|
    decreases |w|
  {
    if w == [] {
      assert w + rest == rest;
    } else {
      assert (w + rest)[1..] == w[1..] + rest;
      WordLengthOfWord(w[1..], rest);
    }
  }

  /** A word followed by whitespace (or nothing) is split off as one field. */
  lemma SplitWord(w: string, rest: string)
    requires w != [] && NoSpace(w)
    requires rest == [] || IsSpace(rest[0])
    ensures Split(w + rest) == [w] + Split(rest)
  {
    WordLengthOfWord(w, rest);
    assert (w + rest)[..|w|] == w;
    assert (w + rest)[|w|..] == rest;
  }

  /** Leading whitespace does not change the split. */
  lemma {:induction false} SplitLeadingSpace(pre: string, s: string)
    requires AllSpace(pre)
    ensures Split(pre + s) == Split(s)
    decreases |pre|
  {
    if pre == [] {
      assert pre + s == s;
    } else {
      assert (pre + s)[1..] == pre[1..] + s;
      SplitLeadingSpace(pre[1..], s);
    }
  }

  /** A string of whitespace only has no fields. */
  lemma SplitAllSpace(s: string)
    requires AllSpace(s)
    ensures Split(s) == []
  {
    SplitLeadingSpace(s, []);
    assert s + [] == s;
  }

  /** A word followed by a run of whitespace is split off as one field. */
  lemma SplitWordSpace(w: string, sep: string, tail: string)
    requires w != [] && NoSpace(w)
    requires sep != [] && AllSpace(sep)
    ensures Split(w + (sep + tail)) == [w] + Split(tail)
  {
    SplitWord(w, sep + tail);
    SplitLeadingSpace(sep, tail);
  }

  /** Splitting the words joined by whitespace and followed by whitespace
      gives the words back. */
  lemma {:induction false} SplitJoinTrailing(words: seq<string>, seps: seq<string>, post: string)
    requires Words(words) && Separators(words, seps) && AllSpace(post)
    ensures Split(JoinWith(words, seps) + post) == words
    decreases |words|
  {
    if words == [] {
      assert JoinWith(words, seps) + post == post;
      SplitAllSpace(post);
    } else if |words| == 1 {
      SplitWord(words[0], post);
      SplitAllSpace(post);
    } else {
      assert Separators(words[1..], seps[1..]);
      var tail := JoinWith(words[1..], seps[1..]) + post;
      assert JoinWith(words, seps) + post == words[0] + (seps[0] + tail) by {
        assert JoinWith(words, seps) == words[0] + seps[0] + JoinWith(words[1..], seps[1..]);
      }
      SplitWordSpace(words[0], seps[0], tail);
      SplitJoinTrailing(words[1..], seps[1..], post);
      assert words == [words[0]] + words[1..];
    }
  }

  /** Splitting the words joined by runs of whitespace, with any whitespace
      before and after them (a line's trailing line feed, say), gives the
      words back. */
  lemma SplitJoin(pre: string, words: seq<string>, seps: seq<string>, post: string)
    requires AllSpace(pre) && Words(words) && Separators(words, seps) && AllSpace(post)
    ensures Split(pre + JoinWith(words, seps) + post) == words
  {
    assert pre + JoinWith(words, seps) + post == pre + (JoinWith(words, seps) + post);
    SplitLeadingSpace(pre, JoinWith(words, seps) + post);
    SplitJoinTrailing(words, seps, post);
  }
}
