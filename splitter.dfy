// `BaseView.content_splitter`: a regular expression matched at the start of
// the file, modelled by the decomposition it imposes rather than by a
// regular-expression engine.
//
// A match is: leading newlines, `/*`, newlines, a meta block made of whole
// lines, `*/` at the start of a line, and the content, which is the whole
// rest of the file. Both newline runs are greedy, and the meta group takes
// as many lines as it can, so the closing `*/` chosen is the LAST one that
// starts a line of the block.
module Splitter {
  import opened Wrappers

  function Newlines(n: nat): (r: string)
    ensures |r| == n && forall i :: 0 <= i < n ==> r[i] == '\n'
  {
    seq(n, _ => '\n')
  }

  // The shape the pattern imposes on a file it matches.
  ghost predicate Decomposes(s: string, lead: nat, gap: nat, meta: string, content: string) {
    && s == Newlines(lead) + "/*" + Newlines(gap) + meta + "*/" + content
    && (meta == "" || meta[|meta| - 1] == '\n')
  }

  // `s` holds a line that starts with `*/`, after its first character.
  ghost predicate HasCloseLine(s: string) {
    exists i :: 0 <= i <= |s| - 3 && s[i] == '\n' && s[i + 1] == '*' && s[i + 2] == '/'
  }

  function LeadingNewlines(s: string): (n: nat)
    ensures n <= |s|
    ensures forall i :: 0 <= i < n ==> s[i] == '\n'
    ensures n < |s| ==> s[n] != '\n'
  {
    if s != [] && s[0] == '\n' then 1 + LeadingNewlines(s[1..]) else 0
  }

  // The meta group, begun at `start`, can end at `p`: `p` is `start` or
  // follows a newline, and `*/` begins at `p`.
  predicate CloseAt(s: string, start: nat, p: nat) {
    start <= p && p + 2 <= |s| && (p == start || s[p - 1] == '\n') && s[p] == '*' && s[p + 1] == '/'
  }

  // The greatest `p` with `start <= p <= hi` at which the meta group can end.
  function LastClose(s: string, start: nat, hi: nat): (r: Option<nat>)
    requires start <= hi
    ensures r.Some? ==> start <= r.value <= hi && CloseAt(s, start, r.value)
    ensures r.Some? ==> forall q :: r.value < q <= hi ==> !CloseAt(s, start, q)
    ensures r.None? ==> forall q :: start <= q <= hi ==> !CloseAt(s, start, q)
    decreases hi - start
  {
    if CloseAt(s, start, hi) then Some(hi)
    else if hi == start then None
    else LastClose(s, start, hi - 1)
  }

  // Where the meta group begins when the file opens with `/*` after its
  // leading newlines.
  function MetaStart(s: string): (start: nat)
    requires LeadingNewlines(s) + 2 <= |s|
    ensures LeadingNewlines(s) + 2 <= start <= |s|
  {
    var lead := LeadingNewlines(s);
    lead + 2 + LeadingNewlines(s[lead + 2..])
  }

  predicate OpensBlock(s: string) {
    var lead := LeadingNewlines(s);
    lead + 2 <= |s| && s[lead] == '/' && s[lead + 1] == '*'
  }

  // `re.match`: the meta and content groups, or `None` when there is no match.
  function Match(s: string): Option<(string, string)> {
    if !OpensBlock(s) then None
    else
      var start := MetaStart(s);
      match LastClose(s, start, |s|)
      case None => None
      case Some(p) => Some((s[start..p], s[p + 2..]))
  }

  // The pair `content_splitter` returns: both groups, or two empty strings
  // when the file does not match.
  function ContentSplitter(s: string): (string, string) {
    match Match(s)
    case None => ("", "")
    case Some(groups) => groups
  }

  // What a match returns is a decomposition of the file, with the greedy
  // choices the pattern makes: the meta block does not start with a
  // newline, and no later line of the content starts with `*/`.
  lemma MatchSound(s: string)
    requires Match(s).Some?
    ensures var (meta, content) := Match(s).value;
      && (exists lead: nat, gap: nat :: Decomposes(s, lead, gap, meta, content))
      && (meta == "" || meta[0] != '\n')
      && !HasCloseLine(content)
  {
    var start := MetaStart(s);
    var p := LastClose(s, start, |s|).value;
    MatchDecomposes(s, start, p);
    MetaAfterGap(s, start, p);
    ContentHasNoClose(s, start, p);
  }

  lemma MatchDecomposes(s: string, start: nat, p: nat)
    requires OpensBlock(s) && start == MetaStart(s)
    requires start <= p && CloseAt(s, start, p)
    ensures Decomposes(s, LeadingNewlines(s), start - LeadingNewlines(s) - 2, s[start..p], s[p + 2..])
  {
    OpeningPieces(s, start);
    CloseChars(s, p);
    DecomposesFromPieces(s, LeadingNewlines(s), start - LeadingNewlines(s) - 2, start, p);
  }

  lemma CloseChars(s: string, p: nat)
    requires p + 2 <= |s| && s[p] == '*' && s[p + 1] == '/'
    ensures s[p..p + 2] == "*/"
  {
    PairAt(s, p);
  }

  lemma PairAt(s: string, i: nat)
    requires i + 2 <= |s|
    ensures s[i..i + 2] == [s[i], s[i + 1]]
  {
  }

  // The text before the meta group: leading newlines, `/*`, newlines.
  lemma OpeningPieces(s: string, start: nat)
    requires OpensBlock(s) && start == MetaStart(s)
    ensures LeadingNewlines(s) + 2 <= start
    ensures s[..LeadingNewlines(s)] == Newlines(LeadingNewlines(s))
    ensures s[LeadingNewlines(s)..LeadingNewlines(s) + 2] == "/*"
    ensures s[LeadingNewlines(s) + 2..start] == Newlines(start - LeadingNewlines(s) - 2)
  {
    LeadPiece(s);
    PairAt(s, LeadingNewlines(s));
    GapPiece(s);
  }

  lemma LeadPiece(s: string)
    ensures s[..LeadingNewlines(s)] == Newlines(LeadingNewlines(s))
  {
    NewlinesAt(s, 0, LeadingNewlines(s));
    assert s[..LeadingNewlines(s)] == s[0..LeadingNewlines(s)];
  }

  lemma GapPiece(s: string)
    requires OpensBlock(s)
    ensures s[LeadingNewlines(s) + 2..MetaStart(s)] == Newlines(MetaStart(s) - LeadingNewlines(s) - 2)
  {
    GapNewlines(s);
    NewlinesAt(s, LeadingNewlines(s) + 2, MetaStart(s) - LeadingNewlines(s) - 2);
  }

  // The newlines `MetaStart` passes over after `/*`.
  lemma GapNewlines(s: string)
    requires OpensBlock(s)
    ensures forall i :: LeadingNewlines(s) + 2 <= i < MetaStart(s) ==> s[i] == '\n'
  {
    var lead := LeadingNewlines(s);
    var t := s[lead + 2..];
    forall i | lead + 2 <= i < MetaStart(s)
      ensures s[i] == '\n'
    {
      assert s[i] == t[i - lead - 2];
    }
  }

  lemma NewlinesAt(s: string, a: nat, n: nat)
    requires a + n <= |s|
    requires forall i :: a <= i < a + n ==> s[i] == '\n'
    ensures s[a..a + n] == Newlines(n)
  {
  }

  lemma DecomposesFromPieces(s: string, lead: nat, gap: nat, start: nat, p: nat)
    requires start == lead + 2 + gap
    requires start <= p && p + 2 <= |s|
    requires s[..lead] == Newlines(lead) && s[lead..lead + 2] == "/*"
    requires s[lead + 2..start] == Newlines(gap) && s[p..p + 2] == "*/"
    requires p == start || s[p - 1] == '\n'
    ensures Decomposes(s, lead, gap, s[start..p], s[p + 2..])
  {
    Glue(s, lead, lead + 2);
    Glue(s, lead + 2, start);
    Glue(s, start, p);
    Glue(s, p, p + 2);
    Glue(s, p + 2, |s|);
    assert s[..|s|] == s;
    assert s[start..p] != "" ==> s[start..p][p - 1 - start] == s[p - 1];
  }

  lemma Glue(s: string, i: nat, j: nat)
    requires i <= j <= |s|
    ensures s[..j] == s[..i] + s[i..j]
  {
  }

  lemma MetaAfterGap(s: string, start: nat, p: nat)
    requires OpensBlock(s) && start == MetaStart(s)
    requires start <= p <= |s|
    ensures s[start..p] == "" || s[start..p][0] != '\n'
  {
    var lead := LeadingNewlines(s);
    var t := s[lead + 2..];
    if start < p {
      assert t[start - lead - 2] == s[start];
    }
  }

  lemma ContentHasNoClose(s: string, start: nat, p: nat)
    requires start <= p && p + 2 <= |s|
    requires forall q :: p < q <= |s| ==> !CloseAt(s, start, q)
    ensures !HasCloseLine(s[p + 2..])
  {
    var content := s[p + 2..];
    forall i | 0 <= i <= |content| - 3
      ensures !(content[i] == '\n' && content[i + 1] == '*' && content[i + 2] == '/')
    {
      assert !CloseAt(s, start, p + 3 + i);
      assert content[i] == s[p + 2 + i] && content[i + 1] == s[p + 3 + i] && content[i + 2] == s[p + 4 + i];
    }
  }

  // The positions a decomposition fixes in the file.
  lemma DecomposesAt(s: string, lead: nat, gap: nat, meta: string, content: string)
    requires Decomposes(s, lead, gap, meta, content)
    ensures |s| == lead + 2 + gap + |meta| + 2 + |content|
    ensures forall i :: 0 <= i < lead ==> s[i] == '\n'
    ensures s[lead] == '/' && s[lead + 1] == '*'
    ensures forall i :: lead + 2 <= i < lead + 2 + gap ==> s[i] == '\n'
    ensures s[lead + 2 + gap..lead + 2 + gap + |meta|] == meta
    ensures s[lead + 2 + gap + |meta|] == '*' && s[lead + 2 + gap + |meta| + 1] == '/'
  {
    var a := Newlines(lead) + "/*" + Newlines(gap);
    assert s == a + meta + "*/" + content;
    assert forall i :: 0 <= i < lead ==> s[i] == a[i];
    assert forall i :: lead + 2 <= i < lead + 2 + gap ==> s[i] == a[i];
  }

  // Whenever the file has the shape the pattern describes, it matches, and
  // the content returned is no longer than that of the given shape (the
  // match takes the last possible `*/`).
  lemma {:induction false} MatchComplete(s: string, lead: nat, gap: nat, meta: string, content: string)
    requires Decomposes(s, lead, gap, meta, content)
    ensures Match(s).Some?
    ensures |Match(s).value.1| <= |content|
  {
    var q := ShapeCloses(s, lead, gap, meta, content);
    var r := LastClose(s, MetaStart(s), |s|);
    assert r.Some? && q <= r.value;
    assert Match(s).value.1 == s[r.value + 2..];
  }

  // In a file of the pattern's shape, the `*/` of the shape is a place where
  // the meta group can end.
  lemma ShapeCloses(s: string, lead: nat, gap: nat, meta: string, content: string) returns (q: nat)
    requires Decomposes(s, lead, gap, meta, content)
    ensures OpensBlock(s) && MetaStart(s) <= q
    ensures CloseAt(s, MetaStart(s), q) && |content| == |s| - q - 2
  {
    DecomposesAt(s, lead, gap, meta, content);
    assert LeadingNewlines(s) == lead by {
      LeadingNewlinesExact(s, lead);
    }
    assert OpensBlock(s);
    var start := MetaStart(s);
    q := lead + 2 + gap + |meta|;
    var t := s[lead + 2..];
    var k := LeadingNewlines(t);
    assert k <= gap + |meta| by {
      assert t[gap + |meta|] == s[q];
    }
    assert k >= gap by {
      assert forall i :: 0 <= i < gap ==> t[i] == s[lead + 2 + i];
    }
    assert start == lead + 2 + k;
    assert q == start || s[q - 1] == '\n' by {
      if |meta| > 0 {
        assert s[q - 1] == meta[|meta| - 1];
      } else if gap > 0 {
        assert s[q - 1] == '\n';
      }
    }
  }

  lemma LeadingNewlinesExact(s: string, n: nat)
    requires n < |s| && s[n] != '\n'
    requires forall i :: 0 <= i < n ==> s[i] == '\n'
    ensures LeadingNewlines(s) == n
  {
    var m := LeadingNewlines(s);
    assert m <= n;
  }

  // A file in which `*/` never occurs splits into two empty strings.
  lemma NoCloseMeansEmpty(s: string)
    requires forall i :: 0 <= i < |s| - 1 ==> !(s[i] == '*' && s[i + 1] == '/')
    ensures ContentSplitter(s) == ("", "")
  {
    if OpensBlock(s) {
      var start := MetaStart(s);
      assert forall q :: start <= q <= |s| ==> !CloseAt(s, start, q);
    }
  }

  // The groups of a match are fixed by where the meta block starts and by
  // the last place it can end.
  lemma SplitAt(s: string, start: nat, p: nat)
    requires OpensBlock(s) && MetaStart(s) == start
    requires CloseAt(s, start, p)
    requires forall q :: p < q <= |s| ==> !CloseAt(s, start, q)
    ensures ContentSplitter(s) == (s[start..p], s[p + 2..])
  {
    var r := LastClose(s, start, |s|);
    assert r.Some? && r.value == p;
  }

  // Leading newlines and the newlines after `/*` belong to neither group.
  lemma SplitExample(s: string)
    requires s == "\n/*\nk: v\n*/"
    ensures ContentSplitter(s) == ("k: v\n", "")
  {
    ExampleOpens(s);
    ExampleGroups(s);
    SplitAt(s, 4, 9);
  }

  lemma ExampleOpens(s: string)
    requires s == "\n/*\nk: v\n*/"
    ensures OpensBlock(s) && MetaStart(s) == 4
  {
    assert LeadingNewlines(s) == 1;
    assert LeadingNewlines(s[3..]) == 1;
  }

  lemma ExampleGroups(s: string)
    requires s == "\n/*\nk: v\n*/"
    ensures |s| == 11 && CloseAt(s, 4, 9)
    ensures s[4..9] == "k: v\n" && s[11..] == []
  {
    assert s[3] == '\n' && s[9] == '*' && s[10] == '/';
    var m := s[4..9];
    assert m[0] == 'k' && m[1] == ':' && m[2] == ' ' && m[3] == 'v' && m[4] == '\n';
  }

  // A `*/` inside a line does not close the block: only one at the start of
  // a line does.
  lemma CloseOnlyAtLineStart(s: string)
    requires s == "/*a */ b\n*/x"
    ensures ContentSplitter(s) == ("a */ b\n", "x")
  {
    InlineOpens(s);
    InlineGroups(s);
    SplitAt(s, 2, 9);
  }

  lemma InlineOpens(s: string)
    requires s == "/*a */ b\n*/x"
    ensures OpensBlock(s) && MetaStart(s) == 2
  {
    assert LeadingNewlines(s) == 0;
    assert LeadingNewlines(s[2..]) == 0;
  }

  lemma InlineGroups(s: string)
    requires s == "/*a */ b\n*/x"
    ensures CloseAt(s, 2, 9) && forall q :: 9 < q <= |s| ==> !CloseAt(s, 2, q)
    ensures s[2..9] == "a */ b\n" && s[11..] == "x"
  {
    assert |s| == 12 && s[8] == '\n' && s[9] == '*' && s[10] == '/' && s[11] == 'x';
    var m := s[2..9];
    assert m[0] == 'a' && m[1] == ' ' && m[2] == '*' && m[3] == '/' && m[4] == ' ' && m[5] == 'b' && m[6] == '\n';
    assert s[11..] == [s[11]];
  }
}
