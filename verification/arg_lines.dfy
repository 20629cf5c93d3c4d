/** The argument-file line filter of `IanArgumentParser`: a line of an
    argument file is split shell-style, blank tokens are skipped, and the
    first non-blank token that starts with '#' ends the line. */
module ArgLines {
  import opened Wrappers

  /** The characters for which Python's `str.isspace` holds, listed one by one. */
  const PythonWhitespace: set<char> :=
    {'\t', '\n', '\U{B}', '\U{C}', '\r', '\U{1C}', '\U{1D}', '\U{1E}', '\U{1F}', ' ',
     '\U{85}', '\U{A0}', '\U{1680}',
     '\U{2000}', '\U{2001}', '\U{2002}', '\U{2003}', '\U{2004}', '\U{2005}',
     '\U{2006}', '\U{2007}', '\U{2008}', '\U{2009}', '\U{200A}',
     '\U{2028}', '\U{2029}', '\U{202F}', '\U{205F}', '\U{3000}'}

  /** Python's `str.isspace` on one character: the ASCII whitespace and
      separator controls plus the Unicode space characters. */
  predicate IsSpace(c: char)
  {
    ('\t' <= c <= '\r') || ('\U{1C}' <= c <= '\U{1F}') || c == ' '
    || c == '\U{85}' || c == '\U{A0}' || c == '\U{1680}'
    || ('\U{2000}' <= c <= '\U{200A}') || c == '\U{2028}' || c == '\U{2029}'
    || c == '\U{202F}' || c == '\U{205F}' || c == '\U{3000}'
  }

  /** `s.lstrip()`: `s` without its leading whitespace. */
  function LStrip(s: string): (r: string)
    ensures |r| <= |s| && r == s[|s| - |r|..]
    ensures r != [] ==> !IsSpace(r[0])
    ensures forall i :: 0 <= i < |s| - |r| ==> IsSpace(s[i])
  {
    if s == [] || !IsSpace(s[0]) then s else LStrip(s[1..])
  }

  /** `s.rstrip()`: `s` without its trailing whitespace. */
  function RStrip(s: string): (r: string)
    ensures |r| <= |s| && r == s[..|r|]
    ensures r != [] ==> !IsSpace(r[|r| - 1])
    ensures forall i :: |r| <= i < |s| ==> IsSpace(s[i])
  {
    if s == [] || !IsSpace(s[|s| - 1]) then s else RStrip(s[..|s| - 1])
  }

  /** `s.strip()`: `s` without its leading and trailing whitespace. */
  function Strip(s: string): string
  {
    RStrip(LStrip(s))
  }

  /** `not arg.strip()`: nothing is left of the token once surrounding
      whitespace is stripped (the empty token included); that is, every
      character of it is whitespace. */
  predicate IsBlank(s: string)
  {
    forall i :: 0 <= i < |s| ==> IsSpace(s[i])
  }

  /** A token that ends the line: it is not blank and its first character is '#'. */
  predicate IsComment(s: string)
  {
    !IsBlank(s) && s[0] == '#'
  }

  /** The character test is exactly Python's whitespace set. */
  lemma SpaceIsPythonWhitespace(c: char)
    ensures IsSpace(c) <==> c in PythonWhitespace
  {
  }

  /** A token is blank exactly when `strip()` leaves nothing of it. */
  lemma BlankIffStripEmpty(s: string)
    ensures IsBlank(s) <==> Strip(s) == []
  {
    var l := LStrip(s);
    if l != [] {
      assert !IsSpace(l[0]);
      assert l[0] == s[|s| - |l|];
    }
  }

  /** A token ends the line exactly when `strip()` leaves something of it and
      its first character is '#', the two tests of the loop. */
  lemma CommentIffHashAfterStrip(s: string)
    ensures IsComment(s) <==> Strip(s) != [] && |s| > 0 && s[0] == '#'
  {
    BlankIffStripEmpty(s);
  }

  /** The position of the first comment token, or the number of tokens when
      there is none: the filter never looks past this position. */
  function CommentStart(tokens: seq<string>): (k: nat)
    ensures k <= |tokens|
    ensures forall i :: 0 <= i < k ==> !IsComment(tokens[i])
    ensures k < |tokens| ==> IsComment(tokens[k])
  {
    if tokens == [] then 0
    else if IsComment(tokens[0]) then 0
    else 1 + CommentStart(tokens[1..])
  }

  /** The tokens that are not blank, in their original order. */
  function NonBlank(tokens: seq<string>): (r: seq<string>)
    ensures |r| <= |tokens|
    ensures forall t :: t in r ==> t in tokens && !IsBlank(t)
  {
    if tokens == [] then []
    else if IsBlank(tokens[0]) then NonBlank(tokens[1..])
    else [tokens[0]] + NonBlank(tokens[1..])
  }

  /** The arguments a line contributes, given the tokens the split produced:
      the non-blank tokens before the first comment token. */
  function ArgsOf(tokens: seq<string>): seq<string>
  {
    NonBlank(tokens[..CommentStart(tokens)])
  }

  /** `convert_arg_line_to_args`: splits the line with `split` (standing for
      `shlex.split`) and walks its tokens, skipping blank ones and stopping at
      the first comment token. A failed split terminates with status -1 before
      any token is produced. */
  method ConvertArgLineToArgs(line: string, split: string -> Option<seq<string>>)
    returns (r: Completion<seq<string>>)
    ensures split(line).None? ==> r == Exit(-1)
    ensures split(line).Some? ==> r == Returned(ArgsOf(split(line).value))
  {
    var parsed := split(line);
    if parsed.None? {
      return Exit(-1);
    }
    var tokens := parsed.value;
    var args: seq<string> := [];
    var i := 0;
    while i < |tokens|
      invariant i <= |tokens|
      invariant forall j :: 0 <= j < i ==> !IsComment(tokens[j])
      invariant args == NonBlank(tokens[..i])
    {
      var arg := tokens[i];
      if !IsBlank(arg) {
        if arg[0] == '#' {
          break;
        }
        args := args + [arg];
      }
      NonBlankAppend(tokens[..i], [arg]);
      assert tokens[..i + 1] == tokens[..i] + [arg];
      i := i + 1;
    }
    assert CommentStart(tokens) == i;
    return Returned(args);
  }

  // ---------------------------------------------------------------------
  // How the filter composes over concatenated token sequences

  lemma {:induction false} NonBlankAppend(a: seq<string>, b: seq<string>)
    ensures NonBlank(a + b) == NonBlank(a) + NonBlank(b)
  {
    if a != [] {
      assert (a + b)[1..] == a[1..] + b;
      NonBlankAppend(a[1..], b);
    } else {
      assert a + b == b;
    }
  }

  lemma {:induction false} CommentStartAppend(a: seq<string>, b: seq<string>)
    ensures CommentStart(a + b) ==
            if CommentStart(a) < |a| then CommentStart(a) else |a| + CommentStart(b)
  {
    if a != [] {
      assert (a + b)[0] == a[0];
      if !IsComment(a[0]) {
        assert (a + b)[1..] == a[1..] + b;
        CommentStartAppend(a[1..], b);
      }
    } else {
      assert a + b == b;
    }
  }

  /** The arguments of `a + b`: those of `a` alone when `a` holds a comment
      token, otherwise the non-blank tokens of `a` followed by the arguments
      of `b`. */
  lemma {:induction false} ArgsOfAppend(a: seq<string>, b: seq<string>)
    ensures ArgsOf(a + b) ==
            if CommentStart(a) < |a| then ArgsOf(a) else NonBlank(a) + ArgsOf(b)
  {
    CommentStartAppend(a, b);
    var k := CommentStart(a);
    if k < |a| {
      assert (a + b)[..k] == a[..k];
    } else {
      assert (a + b)[..|a| + CommentStart(b)] == a + b[..CommentStart(b)];
      assert a[..k] == a;
      NonBlankAppend(a, b[..CommentStart(b)]);
    }
  }

  // ---------------------------------------------------------------------
  // Properties of the filter

  /** Whether `idx` lists, in strictly increasing order, positions of `s`
      holding the elements of `r` one by one. */
  ghost predicate IsEmbedding(idx: seq<nat>, r: seq<string>, s: seq<string>)
  {
    |idx| == |r|
    && (forall i :: 0 <= i < |idx| ==> idx[i] < |s| && s[idx[i]] == r[i])
    && (forall i, j :: 0 <= i < j < |idx| ==> idx[i] < idx[j])
  }

  /** Every position moved one place on. */
  function Shift(idx: seq<nat>): (r: seq<nat>)
    ensures |r| == |idx|
    ensures forall i :: 0 <= i < |idx| ==> r[i] == idx[i] + 1
  {
    seq(|idx|, i requires 0 <= i < |idx| => idx[i] + 1)
  }

  /** An embedding of `r` into `s` carries over to `[t] + s`, and extends to
      one of `[t] + r` into `[t] + s`. */
  lemma ShiftEmbedding(idx: seq<nat>, r: seq<string>, s: seq<string>, t: string)
    requires IsEmbedding(idx, r, s)
    ensures IsEmbedding(Shift(idx), r, [t] + s)
    ensures IsEmbedding([0] + Shift(idx), [t] + r, [t] + s)
  {
    var sh := Shift(idx);
    forall i | 0 <= i < |sh|
      ensures sh[i] < |[t] + s| && ([t] + s)[sh[i]] == r[i]
    {
      assert ([t] + s)[idx[i] + 1] == s[idx[i]];
    }
    var ext := [0] + sh;
    forall i | 0 <= i < |ext|
      ensures ext[i] < |[t] + s| && ([t] + s)[ext[i]] == ([t] + r)[i]
    {
      if i > 0 {
        assert ext[i] == sh[i - 1];
        assert ([t] + r)[i] == r[i - 1];
      }
    }
    forall i, j | 0 <= i < j < |ext|
      ensures ext[i] < ext[j]
    {
      if i > 0 {
        assert ext[i] == sh[i - 1] && ext[j] == sh[j - 1];
      } else {
        assert ext[j] == sh[j - 1];
      }
    }
  }

  /** Dropping the blank tokens keeps every non-blank token, in order. */
  lemma {:induction false} NonBlankEmbedding(s: seq<string>) returns (idx: seq<nat>)
    ensures IsEmbedding(idx, NonBlank(s), s)
    ensures forall k :: 0 <= k < |s| && !IsBlank(s[k]) ==> k in idx
  {
    if s == [] {
      idx := [];
    } else {
      var rest := NonBlankEmbedding(s[1..]);
      assert [s[0]] + s[1..] == s;
      ShiftEmbedding(rest, NonBlank(s[1..]), s[1..], s[0]);
      var sh := Shift(rest);
      forall k | 1 <= k < |s| && !IsBlank(s[k])
        ensures k in sh
      {
        assert s[1..][k - 1] == s[k];
        var i :| 0 <= i < |rest| && rest[i] == k - 1;
        assert sh[i] == k;
      }
      if IsBlank(s[0]) {
        idx := sh;
      } else {
        idx := [0] + sh;
      }
    }
  }

  /** The produced arguments are an order-preserving subsequence of the split
      tokens, all taken from before the first comment token; every non-blank
      token before it is produced. */
  lemma {:induction false} ArgsAreSubsequence(tokens: seq<string>) returns (idx: seq<nat>)
    ensures IsEmbedding(idx, ArgsOf(tokens), tokens)
    ensures forall i :: 0 <= i < |idx| ==> idx[i] < CommentStart(tokens)
    ensures forall k :: 0 <= k < CommentStart(tokens) && !IsBlank(tokens[k]) ==> k in idx
  {
    var prefix := tokens[..CommentStart(tokens)];
    idx := NonBlankEmbedding(prefix);
    forall k | 0 <= k < CommentStart(tokens) && !IsBlank(tokens[k])
      ensures k in idx
    {
      assert prefix[k] == tokens[k];
    }
  }

  /** No produced argument is blank or starts with '#'. */
  lemma {:induction false} ArgsAreNotBlankNorComment(tokens: seq<string>)
    ensures forall a :: a in ArgsOf(tokens) ==> !IsBlank(a) && a[0] != '#'
  {
    var prefix := tokens[..CommentStart(tokens)];
    forall a | a in ArgsOf(tokens)
      ensures !IsBlank(a) && a[0] != '#'
    {
      var j :| 0 <= j < |prefix| && prefix[j] == a;
      assert !IsComment(tokens[j]);
    }
  }

  /** A comment token anywhere ends the line: nothing after it is produced
      (quoting does not matter, since the split has already removed quotes). */
  lemma {:induction false} CommentTruncates(tokens: seq<string>, k: nat)
    requires k < |tokens| && IsComment(tokens[k])
    ensures ArgsOf(tokens) == ArgsOf(tokens[..k])
  {
    assert tokens == tokens[..k] + tokens[k..];
    ArgsOfAppend(tokens[..k], tokens[k..]);
    if CommentStart(tokens[..k]) == k {
      assert tokens[k..][0] == tokens[k];
      assert (tokens[..k])[..k] == tokens[..k];
    }
  }

  /** A blank first token is skipped. */
  lemma BlankHeadSkipped(b: string, post: seq<string>)
    requires IsBlank(b)
    ensures ArgsOf([b] + post) == ArgsOf(post)
  {
    var c := CommentStart(post);
    assert ([b] + post)[1..] == post;
    assert CommentStart([b] + post) == 1 + c;
    assert ([b] + post)[..1 + c] == [b] + post[..c];
    assert ([b] + post[..c])[1..] == post[..c];
  }

  /** Blank tokens are skipped and do not end the line. */
  lemma BlankTokenSkipped(pre: seq<string>, b: string, post: seq<string>)
    requires IsBlank(b)
    ensures ArgsOf(pre + [b] + post) == ArgsOf(pre + post)
  {
    assert pre + [b] + post == pre + ([b] + post);
    ArgsOfAppend(pre, [b] + post);
    ArgsOfAppend(pre, post);
    BlankHeadSkipped(b, post);
  }

  /** Without a comment token, the output is exactly the split tokens with
      the blank ones removed. */
  lemma {:induction false} WithoutCommentOnlyBlanksDropped(tokens: seq<string>)
    requires forall i :: 0 <= i < |tokens| ==> !IsComment(tokens[i])
    ensures ArgsOf(tokens) == NonBlank(tokens)
  {
    assert tokens[..|tokens|] == tokens;
  }

  /** A line whose tokens are all blank contributes nothing. An empty line,
      or one of spaces and tabs, splits into no tokens; a line of other
      whitespace, such as U+00A0, splits into blank tokens, which are
      skipped. */
  lemma {:induction false} AllBlankGivesNothing(tokens: seq<string>)
    requires forall i :: 0 <= i < |tokens| ==> IsBlank(tokens[i])
    ensures ArgsOf(tokens) == []
  {
    if tokens != [] {
      assert !IsComment(tokens[0]);
      AllBlankGivesNothing(tokens[1..]);
      ArgsOfAppend([tokens[0]], tokens[1..]);
      assert [tokens[0]] + tokens[1..] == tokens;
    }
  }

  /** Filtering the produced arguments again changes nothing. */
  lemma {:induction false} ArgsOfIdempotent(tokens: seq<string>)
    ensures ArgsOf(ArgsOf(tokens)) == ArgsOf(tokens)
  {
    var r := ArgsOf(tokens);
    ArgsAreNotBlankNorComment(tokens);
    forall i | 0 <= i < |r| ensures !IsComment(r[i]) && !IsBlank(r[i]) {
      assert r[i] in r;
    }
    WithoutCommentOnlyBlanksDropped(r);
    NonBlankOfNonBlank(r);
  }

  lemma {:induction false} NonBlankOfNonBlank(s: seq<string>)
    requires forall i :: 0 <= i < |s| ==> !IsBlank(s[i])
    ensures NonBlank(s) == s
  {
    if s != [] {
      NonBlankOfNonBlank(s[1..]);
    }
  }

  /** The line `a b "c d" # e f`, which splits into `a`, `b`, `c d`, `#`, `e`,
      `f`, gives `a`, `b`, `c d`. */
  lemma {:induction false} QuotedSpaceAndCommentExample()
    ensures ArgsOf(["a", "b", "c d", "#", "e", "f"]) == ["a", "b", "c d"]
  {
    var tokens := ["a", "b", "c d", "#", "e", "f"];
    assert !IsBlank("a") by { assert !IsSpace("a"[0]); }
    assert !IsBlank("b") by { assert !IsSpace("b"[0]); }
    assert !IsBlank("c d") by { assert !IsSpace("c d"[0]); }
    assert !IsBlank("#") by { assert !IsSpace("#"[0]); }
    assert CommentStart(tokens[3..]) == 0;
    assert tokens[..3] == ["a", "b", "c d"];
    assert CommentStart(tokens) == 3 by {
      assert tokens[1..][1..][1..] == tokens[3..];
    }
  }

  /** A blank token before a comment token is skipped without ending the
      line, and a token such as `#y` (or a quoted `"#y"`, which the split
      unquotes) ends it. */
  lemma {:induction false} BlankThenCommentExample()
    ensures ArgsOf(["x", " ", "#y", "z"]) == ["x"]
  {
    var tokens := ["x", " ", "#y", "z"];
    assert !IsBlank("x") by { assert !IsSpace("x"[0]); }
    assert IsBlank(" ");
    assert !IsBlank("#y") by { assert !IsSpace("#y"[0]); }
    assert CommentStart(tokens) == 2 by {
      assert tokens[1..][1..] == tokens[2..];
    }
    assert tokens[..2] == ["x", " "];
    assert ["x", " "][1..] == [" "];
  }
}
