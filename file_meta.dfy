// `BaseView.parse_file_meta`: every `key: value` line of a meta block goes
// into a dictionary; the key is the lower-cased text before the first colon,
// the value is the stripped text after it, and a later line overwrites an
// earlier one with the same key.
module FileMeta {
  import opened Wrappers
  import opened Text

  // What one line contributes: `None` for a line without a colon.
  function Entry(line: string): Option<(string, string)> {
    match SplitOnce(line, ':')
    case None => None
    case Some((key, value)) => Some((Lower(key), Strip(value)))
  }

  // The entries of the lines, in order.
  function Entries(lines: seq<string>): (es: seq<Option<(string, string)>>)
    ensures |es| == |lines|
  {
    if lines == [] then [] else Entries(lines[..|lines| - 1]) + [Entry(lines[|lines| - 1])]
  }

  // Entry `i` is that of line `i`.
  lemma {:induction false} EntriesEach(lines: seq<string>)
    ensures forall i :: 0 <= i < |lines| ==> Entries(lines)[i] == Entry(lines[i])
  {
    if lines != [] {
      var init := lines[..|lines| - 1];
      EntriesEach(init);
      assert forall i :: 0 <= i < |init| ==> init[i] == lines[i];
    }
  }

  // The dictionary after a loop that stores the entries in order.
  function Store(es: seq<Option<(string, string)>>): map<string, string> {
    if es == [] then map[]
    else
      var headers := Store(es[..|es| - 1]);
      match es[|es| - 1]
      case None => headers
      case Some((k, v)) => headers[k := v]
  }

  function HeadersOf(lines: seq<string>): map<string, string> {
    Store(Entries(lines))
  }

  predicate HasKey(line: string, k: string) {
    Entry(line).Some? && Entry(line).value.0 == k
  }

  predicate Carries(e: Option<(string, string)>, k: string) {
    e.Some? && e.value.0 == k
  }

  // The shape of an entry: the key is the lower-cased text before the first
  // colon, untrimmed, and the value is the stripped remainder, colons and all.
  lemma EntryShape(line: string)
    ensures Entry(line).None? <==> ':' !in line
    ensures Entry(line).Some? ==>
      exists before, after :: line == before + ":" + after && ':' !in before
        && Entry(line).value == (Lower(before), Strip(after))
  {
    SplitOnceCases(line, ':');
    if Entry(line).Some? {
      var (before, after) := SplitOnce(line, ':').value;
      assert line == before + ":" + after;
    }
  }

  lemma {:induction false} StoreKeys(es: seq<Option<(string, string)>>, k: string)
    ensures k in Store(es) <==> exists i :: 0 <= i < |es| && Carries(es[i], k)
  {
    if es != [] {
      var init := es[..|es| - 1];
      StoreKeys(init, k);
      assert forall i :: 0 <= i < |init| ==> init[i] == es[i];
    }
  }

  lemma {:induction false} StoreLastWins(es: seq<Option<(string, string)>>, i: nat)
    requires i < |es| && es[i].Some?
    requires forall j :: i < j < |es| ==> !Carries(es[j], es[i].value.0)
    ensures es[i].value.0 in Store(es)
    ensures Store(es)[es[i].value.0] == es[i].value.1
  {
    var last := |es| - 1;
    var init := es[..last];
    if i < last {
      assert init[i] == es[i];
      assert forall j :: i < j < |init| ==> init[j] == es[j];
      StoreLastWins(init, i);
      assert !Carries(es[last], es[i].value.0);
    }
  }

  // A key is present exactly when some line carries it.
  lemma HeadersKeys(lines: seq<string>, k: string)
    ensures k in HeadersOf(lines) <==> exists i :: 0 <= i < |lines| && HasKey(lines[i], k)
  {
    var es := Entries(lines);
    EntriesEach(lines);
    StoreKeys(es, k);
    assert forall i :: 0 <= i < |lines| ==> (Carries(es[i], k) <==> HasKey(lines[i], k));
  }

  // The value of a key is the one given by the last line that carries it.
  lemma HeadersLastWins(lines: seq<string>, i: nat)
    requires i < |lines| && Entry(lines[i]).Some?
    requires forall j :: i < j < |lines| ==> !HasKey(lines[j], Entry(lines[i]).value.0)
    ensures Entry(lines[i]).value.0 in HeadersOf(lines)
    ensures HeadersOf(lines)[Entry(lines[i]).value.0] == Entry(lines[i]).value.1
  {
    var es := Entries(lines);
    EntriesEach(lines);
    assert forall j :: i < j < |lines| ==> !Carries(es[j], es[i].value.0);
    StoreLastWins(es, i);
  }

  // The loop of `parse_file_meta` over `meta_string.split("\n")`.
  method ParseFileMeta(metaString: string) returns (headers: map<string, string>)
    ensures headers == HeadersOf(Split(metaString, '\n'))
    ensures forall k :: k in headers <==>
      exists i :: 0 <= i < |Split(metaString, '\n')| && HasKey(Split(metaString, '\n')[i], k)
  {
    var lines := Split(metaString, '\n');
    headers := map[];
    for n := 0 to |lines|
      invariant headers == HeadersOf(lines[..n])
    {
      HeadersStep(lines, n);
      var kvPair := SplitOnce(lines[n], ':');
      if kvPair.Some? {
        headers := headers[Lower(kvPair.value.0) := Strip(kvPair.value.1)];
      }
    }
    assert lines[..|lines|] == lines;
    HeadersKeysAll(lines);
  }

  // One more line stores its entry, if it has one, over the headers so far.
  lemma HeadersStep(lines: seq<string>, n: nat)
    requires n < |lines|
    ensures HeadersOf(lines[..n + 1]) ==
      match SplitOnce(lines[n], ':')
      case None => HeadersOf(lines[..n])
      case Some((key, value)) => HeadersOf(lines[..n])[Lower(key) := Strip(value)]
  {
    assert lines[..n + 1][..n] == lines[..n];
    assert Entries(lines[..n + 1]) == Entries(lines[..n]) + [Entry(lines[n])];
  }

  lemma HeadersKeysAll(lines: seq<string>)
    ensures forall k :: k in HeadersOf(lines) <==> exists i :: 0 <= i < |lines| && HasKey(lines[i], k)
  {
    forall k ensures k in HeadersOf(lines) <==> exists i :: 0 <= i < |lines| && HasKey(lines[i], k) {
      HeadersKeys(lines, k);
    }
  }

  // A colon in the value survives, the key is lower-cased, and white space
  // around the value goes.
  lemma EntryExample(line: string)
    requires line == "Tag: a:b"
    ensures Entry(line) == Some(("tag", "a:b"))
  {
    ExampleSplit(line);
    ExampleStrip(line[4..]);
    var key := line[..3];
    LowerEach(key);
    assert key[0] == 'T' && key[1] == 'a' && key[2] == 'g';
    assert Lower(key) == "tag";
  }

  lemma ExampleSplit(line: string)
    requires line == "Tag: a:b"
    ensures SplitOnce(line, ':') == Some((line[..3], line[4..]))
  {
    assert line[3] == ':' && line[0] != ':' && line[1] != ':' && line[2] != ':';
    assert IndexOf(line, ':') == 3;
  }

  lemma ExampleStrip(v: string)
    requires v == " a:b"
    ensures Strip(v) == "a:b"
  {
    assert IsSpace(v[0]) && !IsSpace(v[1]);
    assert TrimLeft(v) == v[1..];
    assert !IsSpace(v[|v| - 1]);
    assert TrimRight(v[1..]) == v[1..];
    assert v[1..] == "a:b";
  }
}
