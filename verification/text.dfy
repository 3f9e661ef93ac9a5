/** Character classes and the Python `str` operations the scanner relies
    on, over `seq<char>`. Case mapping covers the ASCII letters only. */
module Text {

  /** Python `str.isspace()`, which is also what `\s`, `str.strip()` and
      `str.split()` treat as white space. */
  predicate IsSpace(c: char) {
    || ('\t' <= c <= '\r')
    || ('\U{1C}' <= c <= ' ')
    || c == '\U{85}' || c == '\U{A0}' || c == '\U{1680}'
    || ('\U{2000}' <= c <= '\U{200A}')
    || c == '\U{2028}' || c == '\U{2029}' || c == '\U{202F}' || c == '\U{205F}'
    || c == '\U{3000}'
  }

  predicate IsDigit(c: char) {
    '0' <= c <= '9'
  }

  predicate IsUpper(c: char) {
    'A' <= c <= 'Z'
  }

  predicate IsLower(c: char) {
    'a' <= c <= 'z'
  }

  /** The regex class `[A-Za-z]`. */
  predicate IsLetter(c: char) {
    IsUpper(c) || IsLower(c)
  }

  predicate AllDigits(s: seq<char>) {
    forall i :: 0 <= i < |s| ==> IsDigit(s[i])
  }

  predicate AllLetters(s: seq<char>) {
    forall i :: 0 <= i < |s| ==> IsLetter(s[i])
  }

  function LowerChar(c: char): (r: char)
    ensures !IsUpper(r)
    ensures IsLetter(c) <==> IsLetter(r)
    ensures !IsUpper(c) ==> r == c
  {
    if IsUpper(c) then (c as int + 32) as char else c
  }

  function UpperChar(c: char): (r: char)
    ensures !IsLower(r)
    ensures IsLetter(c) <==> IsLetter(r)
    ensures !IsLower(c) ==> r == c
  {
    if IsLower(c) then (c as int - 32) as char else c
  }

  /** Python `str.lower()` restricted to ASCII. */
  function Lower(s: seq<char>): (r: seq<char>)
    ensures |r| == |s|
    ensures forall i :: 0 <= i < |s| ==> r[i] == LowerChar(s[i])
  {
    seq(|s|, i requires 0 <= i < |s| => LowerChar(s[i]))
  }

  /** Python `str.title()` on a letters-only word: first letter upper case,
      the rest lower case. */
  function TitleWord(s: seq<char>): (r: seq<char>)
    ensures |r| == |s|
    ensures |s| > 0 ==> !IsLower(r[0]) && (IsLetter(s[0]) ==> IsUpper(r[0]))
    ensures forall i :: 0 < i < |s| ==> r[i] == LowerChar(s[i])
    ensures AllLetters(s) ==> AllLetters(r)
  {
    if |s| == 0 then [] else [UpperChar(s[0])] + Lower(s[1..])
  }

  /** Position of the first `c` in `s`, or `|s|` when there is none. */
  function IndexOf(s: seq<char>, c: char): (k: nat)
    ensures k <= |s|
    ensures k < |s| ==> s[k] == c
    ensures forall i :: 0 <= i < k ==> s[i] != c
    decreases |s|
  {
    if |s| == 0 then 0 else if s[0] == c then 0 else 1 + IndexOf(s[1..], c)
  }

  /** Length of the longest prefix of `s` whose characters all satisfy `p`
      (the extent of a greedy regex run). */
  function Run(s: seq<char>, p: char -> bool): (n: nat)
    ensures n <= |s|
    ensures forall i :: 0 <= i < n ==> p(s[i])
    ensures n < |s| ==> !p(s[n])
    decreases |s|
  {
    if |s| == 0 || !p(s[0]) then 0 else 1 + Run(s[1..], p)
  }

  /** A run of `p` characters followed by one that is not (or by nothing)
      is read exactly. */
  lemma RunExact(d: seq<char>, t: seq<char>, p: char -> bool)
    requires forall i :: 0 <= i < |d| ==> p(d[i])
    requires |t| == 0 || !p(t[0])
    ensures Run(d + t, p) == |d|
  {
    var s := d + t;
    assert forall i :: 0 <= i < |d| ==> s[i] == d[i];
    assert |d| < |s| ==> s[|d|] == t[0];
  }

  // ---------------------------------------------------------------- strip

  /** Number of white-space characters at the start of `s`. */
  function LeadSpace(s: seq<char>): (n: nat)
    ensures n <= |s|
    ensures forall i :: 0 <= i < n ==> IsSpace(s[i])
    ensures n < |s| ==> !IsSpace(s[n])
    decreases |s|
  {
    if |s| > 0 && IsSpace(s[0]) then 1 + LeadSpace(s[1..]) else 0
  }

  /** Number of white-space characters at the end of `s`. */
  function TrailSpace(s: seq<char>): (n: nat)
    ensures n <= |s|
    ensures forall i :: |s| - n <= i < |s| ==> IsSpace(s[i])
    ensures n < |s| ==> !IsSpace(s[|s| - n - 1])
    decreases |s|
  {
    if |s| > 0 && IsSpace(s[|s| - 1]) then 1 + TrailSpace(s[..|s| - 1]) else 0
  }

  /** `s` without its leading white space (Python `str.lstrip()`). */
  function TrimStart(s: seq<char>): (r: seq<char>)
    ensures |r| <= |s| && r == s[|s| - |r|..]
    ensures forall i :: 0 <= i < |s| - |r| ==> IsSpace(s[i])
    ensures |r| > 0 ==> !IsSpace(r[0])
  {
    s[LeadSpace(s)..]
  }

  /** `s` without its trailing white space (Python `str.rstrip()`). */
  function TrimEnd(s: seq<char>): (r: seq<char>)
    ensures |r| <= |s| && r == s[..|r|]
    ensures forall i :: |r| <= i < |s| ==> IsSpace(s[i])
    ensures |r| > 0 ==> !IsSpace(r[|r| - 1])
  {
    s[..|s| - TrailSpace(s)]
  }

  /** Neither end of `s` is white space. */
  predicate IsStripped(s: seq<char>) {
    |s| == 0 || (!IsSpace(s[0]) && !IsSpace(s[|s| - 1]))
  }

  /** Python `str.strip()`: the infix of `s` left after removing white space
      from both ends. */
  function Strip(s: seq<char>): (r: seq<char>)
    ensures IsStripped(r)
    ensures var i := |s| - |TrimStart(s)|;
      && 0 <= i <= |s| - |r|
      && r == s[i..i + |r|]
      && (forall k :: 0 <= k < i ==> IsSpace(s[k]))
      && (forall k :: i + |r| <= k < |s| ==> IsSpace(s[k]))
  {
    var i := LeadSpace(s);
    var n := TrailSpace(s[i..]);
    StripParts(s, i, n);
    s[i..|s| - n]
  }

  lemma StripParts(s: seq<char>, i: nat, n: nat)
    requires i <= |s| && n <= |s| - i
    requires i < |s| ==> !IsSpace(s[i])
    requires forall k :: |s| - n <= k < |s| ==> IsSpace(s[k])
    requires n < |s| - i ==> !IsSpace(s[|s| - n - 1])
    ensures IsStripped(s[i..|s| - n])
  {
  }

  /** A string that is already stripped is left as it is. */
  lemma StripStripped(s: seq<char>)
    requires IsStripped(s)
    ensures Strip(s) == s
  {
  }

  /** Trailing white space after a non-space end is all that `rstrip`
      removes. */
  lemma {:induction false} TrailPadded(v: seq<char>, tail: seq<char>)
    requires |v| > 0 && !IsSpace(v[|v| - 1])
    requires forall k :: 0 <= k < |tail| ==> IsSpace(tail[k])
    ensures TrailSpace(v + tail) == |tail|
    decreases |tail|
  {
    if |tail| > 0 {
      assert (v + tail)[..|v + tail| - 1] == v + tail[..|tail| - 1];
      TrailPadded(v, tail[..|tail| - 1]);
    } else {
      assert v + tail == v;
    }
  }

  /** A stripped line with white space after it strips back to itself, as
      a line read with its newline does. */
  lemma StripPadded(v: seq<char>, tail: seq<char>)
    requires |v| > 0 && IsStripped(v)
    requires forall k :: 0 <= k < |tail| ==> IsSpace(tail[k])
    ensures Strip(v + tail) == v
  {
    assert (v + tail)[0] == v[0];
    assert LeadSpace(v + tail) == 0;
    assert (v + tail)[0..] == v + tail;
    TrailPadded(v, tail);
  }

  /** Characters of a stripped infix come from the original string. */
  lemma StripKeepsAbsent(s: seq<char>, c: char)
    requires c !in s
    ensures c !in Strip(s)
  {
    var r := Strip(s);
    var i := |s| - |TrimStart(s)|;
    forall k | 0 <= k < |r|
      ensures r[k] != c
    {
      assert r[k] == s[i + k];
    }
  }

  // ---------------------------------------------------------------- split / join

  /** Python `s.split(sep)` for a one-character separator: always at least
      one part, and `k` separators give `k + 1` parts. */
  function Split(s: seq<char>, sep: char): (parts: seq<seq<char>>)
    ensures |parts| >= 1
    ensures forall i :: 0 <= i < |parts| ==> sep !in parts[i]
    decreases |s|
  {
    var k := IndexOf(s, sep);
    if k == |s| then [s] else [s[..k]] + Split(s[k + 1..], sep)
  }

  /** Python `sep.join(parts)` for a one-character separator. */
  function Join(parts: seq<seq<char>>, sep: char): seq<char>
    decreases |parts|
  {
    if |parts| == 0 then []
    else if |parts| == 1 then parts[0]
    else parts[0] + [sep] + Join(parts[1..], sep)
  }

  /** Joining the parts of a split restores the text. */
  lemma {:induction false} JoinSplit(s: seq<char>, sep: char)
    ensures Join(Split(s, sep), sep) == s
    decreases |s|
  {
    var k := IndexOf(s, sep);
    if k < |s| {
      var rest := s[k + 1..];
      assert Split(s, sep) == [s[..k]] + Split(rest, sep);
      JoinSplit(rest, sep);
      JoinCons(s[..k], Split(rest, sep), sep);
      assert s == s[..k] + [sep] + rest;
    }
  }

  lemma JoinCons(p: seq<char>, ps: seq<seq<char>>, sep: char)
    requires |ps| >= 1
    ensures Join([p] + ps, sep) == p + [sep] + Join(ps, sep)
  {
    assert ([p] + ps)[1..] == ps;
  }

  /** Splitting a join of separator-free parts gives the parts back. */
  lemma {:induction false} SplitJoin(parts: seq<seq<char>>, sep: char)
    requires |parts| >= 1
    requires forall i :: 0 <= i < |parts| ==> sep !in parts[i]
    ensures Split(Join(parts, sep), sep) == parts
    decreases |parts|
  {
    if |parts| > 1 {
      var rest := Join(parts[1..], sep);
      var s := parts[0] + [sep] + rest;
      assert Join(parts, sep) == s;
      IndexOfPrefix(parts[0], rest, sep);
      AroundSep(parts[0], sep, rest);
      assert forall i :: 0 <= i < |parts[1..]| ==> sep !in parts[1..][i];
      SplitJoin(parts[1..], sep);
      assert Split(s, sep) == [parts[0]] + Split(rest, sep);
      assert [parts[0]] + parts[1..] == parts;
    } else {
      assert IndexOf(parts[0], sep) == |parts[0]|;
    }
  }

  lemma AroundSep(a: seq<char>, sep: char, b: seq<char>)
    ensures (a + [sep] + b)[..|a|] == a && (a + [sep] + b)[|a| + 1..] == b
  {
  }

  lemma IndexOfPrefix(a: seq<char>, b: seq<char>, sep: char)
    requires sep !in a
    ensures IndexOf(a + [sep] + b, sep) == |a|
  {
    var s := a + [sep] + b;
    forall k | 0 <= k < |a|
      ensures s[k] != sep
    {
      assert s[k] == a[k];
    }
    assert s[|a|] == sep;
  }

  /** A character that is not the separator and is in no part is not in
      the join. */
  lemma {:induction false} JoinFree(parts: seq<seq<char>>, sep: char, c: char)
    requires c != sep
    requires forall i :: 0 <= i < |parts| ==> c !in parts[i]
    ensures c !in Join(parts, sep)
    decreases |parts|
  {
    if |parts| > 1 {
      JoinFree(parts[1..], sep, c);
    }
  }

  /** Splitting at a separator placed between two texts splits each of
      them on its own. */
  lemma {:induction false} SplitConcat(a: seq<char>, b: seq<char>, sep: char)
    ensures Split(a + [sep] + b, sep) == Split(a, sep) + Split(b, sep)
    decreases |a|
  {
    var k := IndexOf(a, sep);
    if k == |a| {
      SplitAtFirstSep(a, b, sep);
    } else {
      SplitConcat(a[k + 1..], b, sep);
      SplitConcatStep(a, b, sep, k);
    }
  }

  /** The inductive step of `SplitConcat`: a separator at `k`, the first in
      `a`, ends the first part of both sides, and the rest splits as the
      hypothesis says. */
  lemma SplitConcatStep(a: seq<char>, b: seq<char>, sep: char, k: nat)
    requires k == IndexOf(a, sep) && k < |a|
    requires Split(a[k + 1..] + [sep] + b, sep) == Split(a[k + 1..], sep) + Split(b, sep)
    ensures Split(a + [sep] + b, sep) == Split(a, sep) + Split(b, sep)
  {
    SplitInsideFirst(a, b, sep, k);
    SplitUnfold(a, sep, k);
    PartsAssoc([a[..k]], Split(a[k + 1..], sep), Split(b, sep));
  }

  lemma PartsAssoc(x: seq<seq<char>>, y: seq<seq<char>>, z: seq<seq<char>>)
    ensures x + (y + z) == x + y + z
  {
  }

  lemma SplitUnfold(s: seq<char>, sep: char, k: nat)
    requires k == IndexOf(s, sep) && k < |s|
    ensures Split(s, sep) == [s[..k]] + Split(s[k + 1..], sep)
  {
  }

  /** With no separator in `a`, the separator after it ends the first part. */
  lemma SplitAtFirstSep(a: seq<char>, b: seq<char>, sep: char)
    requires IndexOf(a, sep) == |a|
    ensures Split(a + [sep] + b, sep) == [a] + Split(b, sep)
  {
    IndexOfPrefix(a, b, sep);
    AroundSep(a, sep, b);
  }

  /** A separator at `k`, the first inside `a`, ends the first part there. */
  lemma SplitInsideFirst(a: seq<char>, b: seq<char>, sep: char, k: nat)
    requires k == IndexOf(a, sep) && k < |a|
    ensures Split(a + [sep] + b, sep) == [a[..k]] + Split(a[k + 1..] + [sep] + b, sep)
  {
    var t := [sep] + b;
    ConcatAssoc(a, [sep], b);
    ConcatAssoc(a[k + 1..], [sep], b);
    IndexOfConcat(a, t, sep);
    SliceAround(a, t, k);
    SplitUnfold(a + t, sep, k);
  }

  lemma ConcatAssoc(x: seq<char>, y: seq<char>, z: seq<char>)
    ensures x + y + z == x + (y + z)
  {
  }

  /** Cutting `a + t` around a position inside `a`. */
  lemma SliceAround(a: seq<char>, t: seq<char>, k: nat)
    requires k < |a|
    ensures (a + t)[..k] == a[..k] && (a + t)[k + 1..] == a[k + 1..] + t
  {
  }

  /** The first `c` of `a` is still the first one once more text follows. */
  lemma {:induction false} IndexOfConcat(a: seq<char>, t: seq<char>, c: char)
    requires IndexOf(a, c) < |a|
    ensures IndexOf(a + t, c) == IndexOf(a, c)
    decreases |a|
  {
    if a[0] != c {
      assert (a + t)[1..] == a[1..] + t;
      IndexOfConcat(a[1..], t, c);
    }
  }

  /** A character absent from the text is absent from every part of its split. */
  lemma {:induction false} SplitFree(s: seq<char>, sep: char, c: char)
    requires c !in s
    ensures forall i :: 0 <= i < |Split(s, sep)| ==> c !in Split(s, sep)[i]
    decreases |s|
  {
    var k := IndexOf(s, sep);
    if k < |s| {
      SplitFree(s[k + 1..], sep, c);
      assert c !in s[..k];
      assert Split(s, sep) == [s[..k]] + Split(s[k + 1..], sep);
    }
  }

  // ---------------------------------------------------------------- search

  /** `s` begins with `prefix`. */
  predicate StartsWith(s: seq<char>, prefix: seq<char>) {
    |prefix| <= |s| && s[..|prefix|] == prefix
  }

  /** `s` begins with `lit` ignoring ASCII case (`lit` is given in
      lower case), as the recognisers' `re.I` labels do. */
  predicate HasLabel(s: seq<char>, lit: seq<char>) {
    |lit| <= |s| && Lower(s[..|lit|]) == lit
  }

  /** `pattern` occurs in `s` starting at index `i`. */
  predicate OccursAt(s: seq<char>, pattern: seq<char>, i: int) {
    0 <= i <= |s| - |pattern| && s[i..i + |pattern|] == pattern
  }

  /** Python `pattern in s`, searched from the left. */
  function Contains(s: seq<char>, pattern: seq<char>): (b: bool)
    ensures b <==> exists i :: OccursAt(s, pattern, i)
    decreases |s|
  {
    if StartsWith(s, pattern) then
      assert OccursAt(s, pattern, 0);
      true
    else if |s| == 0 then false
    else
      var r := Contains(s[1..], pattern);
      assert forall i :: OccursAt(s, pattern, i) && i >= 1 ==> OccursAt(s[1..], pattern, i - 1);
      assert forall i :: OccursAt(s[1..], pattern, i) ==> OccursAt(s, pattern, i + 1);
      r
  }

  /** `s` with every occurrence of `c` removed (Python `s.replace(c, "")`). */
  function DeleteAll(s: seq<char>, c: char): (r: seq<char>)
    ensures c !in r
    ensures |r| <= |s|
    ensures forall d :: d != c ==> (d in r <==> d in s)
    decreases |s|
  {
    if |s| == 0 then [] else (if s[0] == c then [] else [s[0]]) + DeleteAll(s[1..], c)
  }

  /** Removal works on each part of a concatenation separately. */
  lemma {:induction false} DeleteAllConcat(a: seq<char>, b: seq<char>, c: char)
    ensures DeleteAll(a + b, c) == DeleteAll(a, c) + DeleteAll(b, c)
    decreases |a|
  {
    if |a| == 0 {
      assert a + b == b;
    } else {
      assert (a + b)[1..] == a[1..] + b;
      DeleteAllConcat(a[1..], b, c);
    }
  }

  /** Removing a character that does not occur changes nothing. */
  lemma {:induction false} DeleteAbsent(s: seq<char>, c: char)
    requires c !in s
    ensures DeleteAll(s, c) == s
    decreases |s|
  {
    if |s| > 0 {
      DeleteAbsent(s[1..], c);
      assert s == [s[0]] + s[1..];
    }
  }

  /** A title-cased word: an upper-case letter followed by lower-case ones. */
  predicate IsTitleWord(w: seq<char>) {
    |w| > 0 && IsUpper(w[0]) && forall i :: 0 < i < |w| ==> IsLower(w[i])
  }

  /** `title()` of a non-empty letters-only word is title-cased, and the
      word reads the same ignoring case. */
  lemma TitleOfLetters(s: seq<char>)
    requires |s| > 0 && AllLetters(s)
    ensures IsTitleWord(TitleWord(s))
    ensures Lower(TitleWord(s)) == Lower(s)
  {
    var t := TitleWord(s);
    assert LowerChar(t[0]) == LowerChar(s[0]);
    forall i | 0 < i < |s|
      ensures IsLower(t[i])
    {
      assert IsLetter(s[i]);
    }
  }
}

/** Python's `" ".join(s.split())`: white-space runs collapsed to single
    spaces and both ends stripped. */
module Words {
  import opened Text

  predicate NotSpace(c: char) {
    !IsSpace(c)
  }

  /** A non-empty run of non-space characters. */
  predicate IsWord(w: seq<char>) {
    |w| > 0 && forall k :: 0 <= k < |w| ==> !IsSpace(w[k])
  }

  /** Python `s.split()`: the maximal runs of non-space characters. */
  function Words(s: seq<char>): (ws: seq<seq<char>>)
    ensures forall i :: 0 <= i < |ws| ==> IsWord(ws[i])
    decreases |s|
  {
    var t := TrimStart(s);
    if |t| == 0 then []
    else
      var n := Run(t, NotSpace);
      FirstWord(t);
      var rest := Words(t[n..]);
      WordsCons(t[..n], rest);
      [t[..n]] + rest
  }

  /** The leading run of non-space characters of a text that starts with
      one is a word. */
  lemma FirstWord(t: seq<char>)
    requires |t| > 0 && !IsSpace(t[0])
    ensures var n := Run(t, NotSpace); n >= 1 && IsWord(t[..n])
  {
    var n := Run(t, NotSpace);
    forall k | 0 <= k < n
      ensures !IsSpace(t[..n][k])
    {
      assert NotSpace(t[k]);
    }
  }

  lemma WordsCons(w: seq<char>, rest: seq<seq<char>>)
    requires IsWord(w)
    requires forall i :: 0 <= i < |rest| ==> IsWord(rest[i])
    ensures forall i :: 0 <= i < |[w] + rest| ==> IsWord(([w] + rest)[i])
  {
    forall i | 0 <= i < |[w] + rest|
      ensures IsWord(([w] + rest)[i])
    {
      if i > 0 {
        assert ([w] + rest)[i] == rest[i - 1];
      }
    }
  }

  /** `s` without its white space. */
  function NonSpace(s: seq<char>): (r: seq<char>)
    ensures forall k :: 0 <= k < |r| ==> !IsSpace(r[k])
    decreases |s|
  {
    if |s| == 0 then [] else (if IsSpace(s[0]) then [] else [s[0]]) + NonSpace(s[1..])
  }

  function Concat(ws: seq<seq<char>>): seq<char>
    decreases |ws|
  {
    if |ws| == 0 then [] else ws[0] + Concat(ws[1..])
  }

  /** Every white-space character is a single ' ' with a non-space
      character on both sides (so the text is also stripped). */
  predicate SingleSpaced(s: seq<char>) {
    forall i :: 0 <= i < |s| && IsSpace(s[i]) ==>
      s[i] == ' ' && 0 < i < |s| - 1 && !IsSpace(s[i - 1]) && !IsSpace(s[i + 1])
  }

  lemma {:induction false} NonSpaceConcat(a: seq<char>, b: seq<char>)
    ensures NonSpace(a + b) == NonSpace(a) + NonSpace(b)
    decreases |a|
  {
    if |a| > 0 {
      assert (a + b)[1..] == a[1..] + b;
      NonSpaceConcat(a[1..], b);
    } else {
      assert a + b == b;
    }
  }

  lemma {:induction false} NonSpaceOfSpaces(s: seq<char>)
    requires forall k :: 0 <= k < |s| ==> IsSpace(s[k])
    ensures NonSpace(s) == []
    decreases |s|
  {
    if |s| > 0 {
      NonSpaceOfSpaces(s[1..]);
    }
  }

  lemma {:induction false} NonSpaceOfWord(s: seq<char>)
    requires forall k :: 0 <= k < |s| ==> !IsSpace(s[k])
    ensures NonSpace(s) == s
    decreases |s|
  {
    if |s| > 0 {
      NonSpaceOfWord(s[1..]);
    }
  }

  /** Splitting loses only white space. */
  lemma {:induction false} WordsKeepContent(s: seq<char>)
    ensures Concat(Words(s)) == NonSpace(s)
    decreases |s|
  {
    var t := TrimStart(s);
    assert s == s[..|s| - |t|] + t;
    NonSpaceConcat(s[..|s| - |t|], t);
    NonSpaceOfSpaces(s[..|s| - |t|]);
    if |t| > 0 {
      var n := Run(t, NotSpace);
      assert t == t[..n] + t[n..];
      NonSpaceConcat(t[..n], t[n..]);
      NonSpaceOfWord(t[..n]);
      WordsKeepContent(t[n..]);
    }
  }

  /** Joining space-free words with ' ' loses only the separators. */
  lemma {:induction false} JoinWordsContent(ws: seq<seq<char>>)
    requires forall i :: 0 <= i < |ws| ==> IsWord(ws[i])
    ensures NonSpace(Join(ws, ' ')) == Concat(ws)
    decreases |ws|
  {
    if |ws| == 1 {
      assert IsWord(ws[0]);
      NonSpaceOfWord(ws[0]);
      assert Concat(ws[1..]) == [];
    } else if |ws| > 1 {
      var rest := Join(ws[1..], ' ');
      assert IsWord(ws[0]);
      assert forall i :: 0 <= i < |ws[1..]| ==> IsWord(ws[1..][i]);
      JoinWordsContent(ws[1..]);
      assert Join(ws, ' ') == ws[0] + [' '] + rest;
      NonSpaceConcat(ws[0] + [' '], rest);
      NonSpaceConcat(ws[0], [' ']);
      NonSpaceOfWord(ws[0]);
      assert NonSpace([' ']) == [] by {
        assert IsSpace(' ');
        assert [' '][1..] == [];
      }
      assert Concat(ws) == ws[0] + Concat(ws[1..]);
    }
  }

  /** Joining non-empty space-free words with ' ' leaves every space single. */
  lemma {:induction false} JoinWordsSpaced(ws: seq<seq<char>>)
    requires forall i :: 0 <= i < |ws| ==> IsWord(ws[i])
    ensures SingleSpaced(Join(ws, ' '))
    ensures |ws| > 0 ==> |Join(ws, ' ')| > 0 && |ws[0]| > 0 && Join(ws, ' ')[0] == ws[0][0]
    decreases |ws|
  {
    if |ws| == 1 {
      assert IsWord(ws[0]);
    } else if |ws| > 1 {
      var rest := Join(ws[1..], ' ');
      assert IsWord(ws[0]);
      assert forall i :: 0 <= i < |ws[1..]| ==> IsWord(ws[1..][i]);
      JoinWordsSpaced(ws[1..]);
      var j := ws[0] + [' '] + rest;
      assert Join(ws, ' ') == j;
      assert IsWord(ws[1]);
      var w := |ws[0]|;
      assert |rest| > 0 && !IsSpace(rest[0]);
      assert forall i :: 0 <= i < w ==> j[i] == ws[0][i];
      forall i | 0 <= i < |j| && IsSpace(j[i])
        ensures j[i] == ' ' && 0 < i < |j| - 1 && !IsSpace(j[i - 1]) && !IsSpace(j[i + 1])
      {
        if i > w {
          assert j[i] == rest[i - w - 1];
          assert j[i - 1] == (if i - 1 == w then ' ' else rest[i - w - 2]);
          assert i + 1 < |j| ==> j[i + 1] == rest[i - w];
        }
      }
    }
  }

  /** `" ".join(s.split())`. */
  function CollapseSpaces(s: seq<char>): (r: seq<char>)
    ensures SingleSpaced(r)
    ensures NonSpace(r) == NonSpace(s)
    ensures |Words(s)| == 0 ==> r == []
    ensures |Words(s)| > 0 ==> Split(r, ' ') == Words(s)
  {
    var ws := Words(s);
    WordsKeepContent(s);
    JoinWordsContent(ws);
    JoinWordsSpaced(ws);
    SplitWords(ws);
    Join(ws, ' ')
  }

  /** Words hold no ' ', so splitting their join at ' ' gives them back. */
  lemma SplitWords(ws: seq<seq<char>>)
    requires forall i :: 0 <= i < |ws| ==> IsWord(ws[i])
    ensures |ws| > 0 ==> Split(Join(ws, ' '), ' ') == ws
  {
    assert forall i :: 0 <= i < |ws| ==> ' ' !in ws[i] by {
      forall i, k | 0 <= i < |ws| && 0 <= k < |ws[i]|
        ensures ws[i][k] != ' '
      {
        assert !IsSpace(ws[i][k]);
      }
    }
    if |ws| > 0 {
      SplitJoin(ws, ' ');
    }
  }

  /** A text that starts with a non-space character keeps it in front. */
  lemma CollapseKeepsHead(s: seq<char>)
    requires |s| > 0 && !IsSpace(s[0])
    ensures |CollapseSpaces(s)| > 0 && CollapseSpaces(s)[0] == s[0]
  {
    var ws := Words(s);
    assert TrimStart(s) == s;
    JoinWordsSpaced(ws);
    var n := Run(s, NotSpace);
    assert ws[0] == s[..n];
  }
}
