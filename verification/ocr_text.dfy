/** The string side of `ocr_text_block` (src/Scanner/ocr_core.py): of the
    two Tesseract passes, which are inputs here, keep the longer stripped
    text, then collapse every run of spaces and tabs to one space. */
module OcrText {
  import opened Text
  import opened Seqs

  /** `t1 if len(t1) >= len(t2) else t2`. */
  function Longer(t1: string, t2: string): (r: string)
    ensures r == t1 || r == t2
    ensures |r| >= |t1| && |r| >= |t2|
    ensures r == t2 && r != t1 ==> |t2| > |t1|
    ensures |t1| == |t2| ==> r == t1
  {
    if |t1| >= |t2| then t1 else t2
  }

  /** The class `[ \t]`. */
  predicate IsBlank(c: char) {
    c == ' ' || c == '\t'
  }

  predicate NotBlank(c: char) {
    !IsBlank(c)
  }

  /** No tab, and no space right after a space. */
  predicate Settled(s: string) {
    && '\t' !in s
    && forall i :: 0 <= i < |s| - 1 ==> !(s[i] == ' ' && s[i + 1] == ' ')
  }

  /** `re.sub(r"[ \t]+", " ", s)`. */
  function CollapseBlanks(s: string): (r: string)
    ensures |r| == 0 <==> |s| == 0
    ensures |r| > 0 ==> r[0] == (if IsBlank(s[0]) then ' ' else s[0])
    ensures Settled(r)
    decreases |s|
  {
    if |s| == 0 then []
    else if IsBlank(s[0]) then
      var n := Run(s, IsBlank);
      var rest := CollapseBlanks(s[n..]);
      assert |rest| > 0 ==> rest[0] == s[n..][0];
      [' '] + rest
    else
      [s[0]] + CollapseBlanks(s[1..])
  }

  /** Collapsing works on each side of any other character separately: in
      particular every newline stays, with the same text on its two sides
      collapsed. */
  lemma {:induction false} CollapseAround(a: string, c: char, b: string)
    requires !IsBlank(c)
    ensures CollapseBlanks(a + [c] + b) == CollapseBlanks(a) + [c] + CollapseBlanks(b)
    decreases |a|
  {
    var s := a + [c] + b;
    if |a| == 0 {
      assert s == [c] + b;
      assert s[1..] == b;
    } else if IsBlank(a[0]) {
      var n := BlankRunAround(a, c, b);
      CollapseAround(a[n..], c, b);
      var x, y := CollapseBlanks(a[n..]), CollapseBlanks(b);
      assert CollapseBlanks(s) == [' '] + (x + [c] + y);
      assert CollapseBlanks(a) == [' '] + x;
      ConsAssoc(' ', x, c, y);
    } else {
      assert s[1..] == a[1..] + [c] + b;
      CollapseAround(a[1..], c, b);
      var x, y := CollapseBlanks(a[1..]), CollapseBlanks(b);
      assert CollapseBlanks(s) == [a[0]] + (x + [c] + y);
      assert CollapseBlanks(a) == [a[0]] + x;
      ConsAssoc(a[0], x, c, y);
    }
  }

  lemma ConsAssoc(d: char, x: string, c: char, y: string)
    ensures [d] + (x + [c] + y) == ([d] + x) + [c] + y
  {
  }

  /** A run of blanks at the front of `a` ends inside `a` or at `c`. */
  lemma BlankRunAround(a: string, c: char, b: string) returns (n: nat)
    requires !IsBlank(c)
    ensures n == Run(a, IsBlank) == Run(a + [c] + b, IsBlank)
    ensures (a + [c] + b)[n..] == a[n..] + [c] + b
  {
    n := Run(a, IsBlank);
    var t := a[n..] + [c] + b;
    assert t[0] == if n < |a| then a[n] else c;
    RunExact(a[..n], t, IsBlank);
    assert a[..n] + t == a + [c] + b;
  }

  /** Settled text is left alone, so collapsing twice is collapsing once. */
  lemma {:induction false} SettledFixed(s: string)
    requires Settled(s)
    ensures CollapseBlanks(s) == s
    decreases |s|
  {
    if |s| > 0 {
      assert Settled(s[1..]) by {
        forall i | 0 <= i < |s| - 2
          ensures !(s[1..][i] == ' ' && s[1..][i + 1] == ' ')
        {
          assert s[1..][i] == s[i + 1] && s[1..][i + 1] == s[i + 2];
        }
      }
      if IsBlank(s[0]) {
        assert s[0] == ' ';
        assert Run(s, IsBlank) == 1 by {
          RunExact(s[..1], s[1..], IsBlank);
          assert s[..1] + s[1..] == s;
        }
      }
      SettledFixed(s[1..]);
    }
  }

  lemma CollapseIdempotent(s: string)
    ensures CollapseBlanks(CollapseBlanks(s)) == CollapseBlanks(s)
  {
    SettledFixed(CollapseBlanks(s));
  }

  /** Apart from spaces and tabs, collapsing keeps every character in
      order. */
  lemma {:induction false} CollapseKeepsText(s: string)
    ensures Keep(CollapseBlanks(s), NotBlank) == Keep(s, NotBlank)
    decreases |s|
  {
    if |s| > 0 {
      if IsBlank(s[0]) {
        var n := Run(s, IsBlank);
        CollapseKeepsText(s[n..]);
        BlankRunKept(s, n);
      } else {
        CollapseKeepsText(s[1..]);
        InkKept(s);
      }
    }
  }

  lemma BlankRunKept(s: string, n: nat)
    requires |s| > 0 && IsBlank(s[0]) && n == Run(s, IsBlank)
    requires Keep(CollapseBlanks(s[n..]), NotBlank) == Keep(s[n..], NotBlank)
    ensures Keep(CollapseBlanks(s), NotBlank) == Keep(s, NotBlank)
  {
    var c := CollapseBlanks(s[n..]);
    assert CollapseBlanks(s) == [' '] + c;
    KeepCons(' ', c, NotBlank);
    TakeDrop(s, n);
    KeepConcat(s[..n], s[n..], NotBlank);
    BlankRun(s, n);
    NoneKept(s[..n]);
  }

  lemma BlankRun(s: string, n: nat)
    requires n == Run(s, IsBlank)
    ensures forall i :: 0 <= i < |s[..n]| ==> IsBlank(s[..n][i])
  {
  }

  lemma InkKept(s: string)
    requires |s| > 0 && !IsBlank(s[0])
    requires Keep(CollapseBlanks(s[1..]), NotBlank) == Keep(s[1..], NotBlank)
    ensures Keep(CollapseBlanks(s), NotBlank) == Keep(s, NotBlank)
  {
    var c := CollapseBlanks(s[1..]);
    assert CollapseBlanks(s) == [s[0]] + c;
    KeepCons(s[0], c, NotBlank);
    KeepCons(s[0], s[1..], NotBlank);
    assert [s[0]] + s[1..] == s;
  }

  lemma {:induction false} NoneKept(s: string)
    requires forall i :: 0 <= i < |s| ==> IsBlank(s[i])
    ensures Keep(s, NotBlank) == []
    decreases |s|
  {
    if |s| > 0 {
      NoneKept(s[1..]);
    }
  }

  /** Every tab turned into a space, everything else as it is. */
  function Untab(s: string): (r: string)
    ensures |r| == |s|
    ensures forall i :: 0 <= i < |s| ==> r[i] == (if IsBlank(s[i]) then ' ' else s[i])
  {
    if |s| == 0 then [] else [if IsBlank(s[0]) then ' ' else s[0]] + Untab(s[1..])
  }

  /** Drops every space whose left neighbour is a space: a character-by-
      character reading of the collapse, independent of runs. */
  function DropDoubled(s: string): (r: string)
    ensures |r| <= |s|
  {
    if |s| <= 1 then s
    else if s[0] == ' ' && s[1] == ' ' then DropDoubled(s[1..])
    else [s[0]] + DropDoubled(s[1..])
  }

  /** A run of `k` spaces at the front drops to one. */
  lemma {:induction false} DropSpaceRun(u: string, k: nat)
    requires 1 <= k <= |u|
    requires forall i :: 0 <= i < k ==> u[i] == ' '
    requires k == |u| || u[k] != ' '
    ensures DropDoubled(u) == [' '] + DropDoubled(u[k..])
    decreases k
  {
    if k > 1 {
      DropSpaceRun(u[1..], k - 1);
      assert u[1..][k - 1..] == u[k..];
    } else if |u| == 1 {
      assert u == [' '] && u[1..] == [];
    }
  }

  /** The run-based collapse is the character-by-character one: tabs become
      spaces and every space after a space goes. */
  lemma {:induction false} CollapseIsDropDoubled(s: string)
    ensures CollapseBlanks(s) == DropDoubled(Untab(s))
    decreases |s|
  {
    if |s| > 0 {
      var u := Untab(s);
      if IsBlank(s[0]) {
        var n := Run(s, IsBlank);
        CollapseIsDropDoubled(s[n..]);
        assert u[n..] == Untab(s[n..]);
        DropSpaceRun(u, n);
      } else {
        CollapseIsDropDoubled(s[1..]);
        assert u[1..] == Untab(s[1..]);
        assert u[0] != ' ';
      }
    }
  }

  /** `ocr_text_block` from the two raw passes. */
  function OcrTextBlock(pass1: string, pass2: string): (r: string)
    ensures Settled(r)
    ensures var t := Longer(Strip(pass1), Strip(pass2));
      Keep(r, NotBlank) == Keep(t, NotBlank)
    ensures r == DropDoubled(Untab(Longer(Strip(pass1), Strip(pass2))))
  {
    var t := Longer(Strip(pass1), Strip(pass2));
    CollapseKeepsText(t);
    CollapseIsDropDoubled(t);
    CollapseBlanks(t)
  }
}
