// The ring of recent log lines, and the writer that cuts a stream of chunks into them.
module LogHistory {
  import opened Tables
  import opened Utf8

  const CAPACITY: nat := 2000

  // ------------------------------------------------------- specification

  function LastN<T>(s: seq<T>, n: nat): seq<T> {
    if |s| <= n then s else s[|s| - n..]
  }

  /** First position of `c`, or the length. */
  function Find(text: string, c: char): (i: nat)
    ensures i <= |text|
    ensures i < |text| ==> text[i] == c
    ensures forall j :: 0 <= j < i ==> text[j] != c
  {
    if text == [] || text[0] == c then 0 else 1 + Find(text[1..], c)
  }

  /** The lines of `text` that a newline closes. */
  function Closed(text: string): seq<string>
    decreases |text|
  {
    var i := Find(text, '\n');
    if i == |text| then [] else [text[..i]] + Closed(text[i + 1..])
  }

  /** What follows the last newline. */
  function Tail(text: string): (tail: string)
    ensures |tail| <= |text|
    decreases |text|
  {
    var i := Find(text, '\n');
    if i == |text| then text else Tail(text[i + 1..])
  }

  function NonEmpty(lines: seq<string>): seq<string> {
    if lines == [] then []
    else NonEmpty(lines[..|lines| - 1]) + (if lines[|lines| - 1] == "" then [] else [lines[|lines| - 1]])
  }

  /** All lines of a text, the unterminated tail included. */
  function Lines(text: string): seq<string> {
    NonEmpty(Closed(text) + [Tail(text)])
  }

  /** What is kept of a chunk: one that is not UTF-8 by itself is accepted and dropped whole. */
  function Kept(chunk: seq<Byte>): string {
    var text := Decode(chunk);
    if text.Some? then text.value else ""
  }

  /** The text that gets through. */
  function Accepted(chunks: seq<seq<Byte>>): string {
    if chunks == [] then "" else Accepted(chunks[..|chunks| - 1]) + Kept(chunks[|chunks| - 1])
  }

  /** The bytes that were written. */
  function Joined(chunks: seq<seq<Byte>>): seq<Byte> {
    if chunks == [] then [] else Joined(chunks[..|chunks| - 1]) + chunks[|chunks| - 1]
  }

  /** Some prefix of the text ends after `n` bytes. */
  ghost predicate Boundary(text: string, n: nat) {
    exists i :: 0 <= i <= |text| && |EncodeAll(text[..i])| == n
  }

  /** No cut between two chunks falls inside a character of the text. */
  ghost predicate CutsBetween(text: string, chunks: seq<seq<Byte>>) {
    forall k :: 0 <= k <= |chunks| ==> Boundary(text, |Joined(chunks[..k])|)
  }

  // -------------------------------------------------------------- the ring

  class History {
    var lines: seq<string>

    constructor ()
      ensures lines == []
    {
      lines := [];
    }

    ghost predicate Valid()
      reads this
    {
      |lines| <= CAPACITY
    }

    method PushLine(line: string)
      requires Valid()
      modifies this
      ensures Valid() && lines == LastN(old(lines) + NonEmpty([line]), CAPACITY)
      ensures line == "" ==> lines == old(lines)
      ensures line != "" ==> lines == (if |old(lines)| < 2000 then old(lines) else old(lines)[1..]) + [line]
    {
      assert [line][..0] == [];
      if line == "" {
        return;
      }
      if |lines| == CAPACITY {
        lines := lines[1..];
      }
      lines := lines + [line];
    }

    /** The most recent `limit` lines, oldest first. */
    method Recent(limit: nat) returns (recent: seq<string>)
      requires Valid()
      ensures recent == LastN(lines, limit)
      ensures |recent| == (if limit <= |lines| then limit else |lines|)
      ensures forall i :: 0 <= i < |recent| ==> recent[i] == lines[|lines| - |recent| + i]
    {
      var skip := if |lines| >= limit then |lines| - limit else 0;
      recent := lines[skip..];
    }
  }

  class Writer {
    const history: History
    var buffer: string

    constructor (history: History)
      ensures this.history == history && buffer == ""
    {
      this.history := history;
      buffer := "";
    }

    method Write(chunk: seq<Byte>)
      requires history.Valid() && Closed(buffer) == []
      modifies this, history
      ensures history.Valid() && Closed(buffer) == []
      ensures var text := old(buffer) + Kept(chunk);
              && history.lines == LastN(old(history.lines) + NonEmpty(Closed(text)), CAPACITY)
              && buffer == Tail(text)
    {
      var more := Decode(chunk);
      if more.None? {
        assert buffer + "" == buffer;
        TailOfTail(buffer);
        assert history.lines + [] == history.lines;
        return;
      }
      buffer := buffer + more.value;
      FlushLines();
    }

    /** Every closed line of the buffer goes to the ring; the tail stays. */
    method FlushLines()
      requires history.Valid()
      modifies this, history
      ensures history.Valid() && Closed(buffer) == [] && buffer == Tail(old(buffer))
      ensures history.lines == LastN(old(history.lines) + NonEmpty(Closed(old(buffer))), CAPACITY)
    {
      ghost var text, before := buffer, history.lines;
      ghost var done: seq<string> := [];
      assert before + NonEmpty(done) == before;
      var i := Find(buffer, '\n');
      while i < |buffer|
        invariant i == Find(buffer, '\n')
        invariant history.Valid()
        invariant done + Closed(buffer) == Closed(text) && Tail(buffer) == Tail(text)
        invariant history.lines == LastN(before + NonEmpty(done), CAPACITY)
        decreases |buffer|
      {
        var line, rest := buffer[..i], buffer[i + 1..];
        CutOne(buffer, line, rest);
        history.PushLine(line);
        PushMore(before, done, line);
        Regroup(done, line, Closed(rest));
        done := done + [line];
        buffer := rest;
        i := Find(buffer, '\n');
      }
      NoMoreLines(buffer);
      assert done + [] == done;
    }

    /** Dropping the writer keeps what never saw its newline. */
    method Drop()
      requires history.Valid() && Closed(buffer) == []
      modifies this, history
      ensures history.Valid()
      ensures history.lines == LastN(old(history.lines) + NonEmpty([old(buffer)]), CAPACITY)
    {
      if buffer != "" {
        history.PushLine(buffer);
        buffer := "";
      } else {
        assert [buffer][..0] == [];
        assert history.lines + [] == history.lines;
      }
    }
  }

  /** A writer's whole life: every chunk written, then dropped. The ring ends with its
      earlier lines followed by those of what got through, the last 2000; and if the chunks
      are a text cut between characters, by those of the text, however it was cut. */
  method Session(history: History, chunks: seq<seq<Byte>>)
    requires history.Valid()
    modifies history
    ensures history.Valid()
    ensures history.lines == LastN(old(history.lines) + Lines(Accepted(chunks)), 2000)
    ensures forall text :: Joined(chunks) == EncodeAll(text) && CutsBetween(text, chunks) ==>
              history.lines == LastN(old(history.lines) + Lines(text), 2000)
  {
    var writer := new Writer(history);
    ghost var before := history.lines;
    assert chunks[..0] == [];
    assert before + NonEmpty([]) == before;
    for i := 0 to |chunks|
      invariant writer.history == history && history.Valid() && Closed(writer.buffer) == []
      invariant history.lines == LastN(before + NonEmpty(Closed(Accepted(chunks[..i]))), CAPACITY)
      invariant writer.buffer == Tail(Accepted(chunks[..i]))
    {
      ghost var text, more := Accepted(chunks[..i]), Kept(chunks[i]);
      writer.Write(chunks[i]);
      assert chunks[..i + 1][..i] == chunks[..i];
      Resume(text, more);
      PushAll(before, Closed(text), Closed(Tail(text) + more));
    }
    assert chunks[..|chunks|] == chunks;
    ghost var text := Accepted(chunks);
    writer.Drop();
    PushAll(before, Closed(text), [Tail(text)]);
    forall whole | Joined(chunks) == EncodeAll(whole) && CutsBetween(whole, chunks) ensures whole == text {
      AcceptedIff(whole, chunks);
    }
  }

  // ------------------------------------------------ cuts inside a character

  ghost predicate AllDecode(chunks: seq<seq<Byte>>) {
    forall k :: 0 <= k < |chunks| ==> Decode(chunks[k]).Some?
  }

  /** What gets through is never longer than what was written, and as long only if every
      chunk decodes; it is then what was written. */
  lemma {:induction false} AcceptedLength(chunks: seq<seq<Byte>>)
    ensures |EncodeAll(Accepted(chunks))| <= |Joined(chunks)|
    ensures AllDecode(chunks) <==> |EncodeAll(Accepted(chunks))| == |Joined(chunks)|
    ensures AllDecode(chunks) ==> EncodeAll(Accepted(chunks)) == Joined(chunks)
  {
    if chunks != [] {
      var init, last := chunks[..|chunks| - 1], chunks[|chunks| - 1];
      AcceptedLength(init);
      EncodeAllConcat(Accepted(init), Kept(last));
      KeptLength(last);
      AllDecodeMore(chunks);
    }
  }

  lemma AllDecodeMore(chunks: seq<seq<Byte>>)
    requires chunks != []
    ensures AllDecode(chunks) <==> AllDecode(chunks[..|chunks| - 1]) && Decode(chunks[|chunks| - 1]).Some?
  {
    var init := chunks[..|chunks| - 1];
    assert forall k :: 0 <= k < |init| ==> chunks[k] == init[k];
  }

  lemma KeptLength(chunk: seq<Byte>)
    ensures Decode(chunk).Some? ==> EncodeAll(Kept(chunk)) == chunk
    ensures Decode(chunk).None? ==> |EncodeAll(Kept(chunk))| < |chunk|
  {
    if Decode(chunk).Some? {
      DecodeIff(chunk, Decode(chunk).value);
    }
  }

  lemma {:induction false} AcceptedPrefix(chunks: seq<seq<Byte>>, k: nat)
    requires k <= |chunks|
    ensures Accepted(chunks[..k]) <= Accepted(chunks) && Joined(chunks[..k]) <= Joined(chunks)
  {
    if k == |chunks| {
      assert chunks[..k] == chunks;
    } else {
      var init := chunks[..|chunks| - 1];
      AcceptedPrefix(init, k);
      assert init[..k] == chunks[..k];
    }
  }

  /** A text gets through unchanged exactly when no cut falls inside a character. */
  lemma AcceptedIff(text: string, chunks: seq<seq<Byte>>)
    requires Joined(chunks) == EncodeAll(text)
    ensures Accepted(chunks) == text <==> CutsBetween(text, chunks)
  {
    AcceptedLength(chunks);
    if AllDecode(chunks) {
      Injective(Accepted(chunks), text);
      forall k | 0 <= k <= |chunks| ensures Boundary(text, |Joined(chunks[..k])|) {
        AcceptedPrefix(chunks, k);
        AcceptedLength(chunks[..k]);
        var i := |Accepted(chunks[..k])|;
        assert text[..i] == Accepted(chunks[..k]);
      }
    } else if CutsBetween(text, chunks) {
      forall k | 0 <= k < |chunks| ensures Decode(chunks[k]).Some? {
        WholeCharacters(text, chunks, k);
      }
      assert false;
    }
  }

  /** A chunk between two cuts between characters is a text. */
  lemma WholeCharacters(text: string, chunks: seq<seq<Byte>>, k: nat)
    requires Joined(chunks) == EncodeAll(text) && CutsBetween(text, chunks) && k < |chunks|
    ensures Decode(chunks[k]).Some?
  {
    var i := CutAt(text, chunks, k);
    var j := CutAt(text, chunks, k + 1);
    assert chunks[..k + 1][..k] == chunks[..k];
    BetweenCuts(text, i, j, chunks[k]);
  }

  lemma BetweenCuts(text: string, i: nat, j: nat, chunk: seq<Byte>)
    requires i <= |text| && j <= |text| && EncodeAll(text[..j]) == EncodeAll(text[..i]) + chunk
    ensures Decode(chunk).Some?
  {
    if j < i {
      PrefixLengths(text, i, j);
      assert false;
    }
    var middle := text[i..j];
    assert text[..j] == text[..i] + middle;
    EncodeAllConcat(text[..i], middle);
    SameTail(EncodeAll(text[..i]), chunk, EncodeAll(middle));
    DecodeIff(chunk, middle);
  }

  lemma SameTail(a: seq<Byte>, b: seq<Byte>, c: seq<Byte>)
    requires a + b == a + c
    ensures b == c
  {
    assert (a + b)[|a|..] == b && (a + c)[|a|..] == c;
  }

  lemma CutAt(text: string, chunks: seq<seq<Byte>>, k: nat) returns (i: nat)
    requires Joined(chunks) == EncodeAll(text) && CutsBetween(text, chunks) && k <= |chunks|
    ensures i <= |text| && Joined(chunks[..k]) == EncodeAll(text[..i])
  {
    assert Boundary(text, |Joined(chunks[..k])|);
    i :| 0 <= i <= |text| && |EncodeAll(text[..i])| == |Joined(chunks[..k])|;
    AcceptedPrefix(chunks, k);
    EncodePrefix(text, i);
    SamePrefix(Joined(chunks[..k]), EncodeAll(text[..i]), Joined(chunks));
  }

  lemma EncodePrefix(text: string, i: nat)
    requires i <= |text|
    ensures EncodeAll(text[..i]) <= EncodeAll(text)
  {
    assert text == text[..i] + text[i..];
    EncodeAllConcat(text[..i], text[i..]);
  }

  lemma SamePrefix(a: seq<Byte>, b: seq<Byte>, whole: seq<Byte>)
    requires a <= whole && b <= whole && |a| == |b|
    ensures a == b
  {
  }

  /** A line, then an accented letter. */
  const ACCENTED: string := "a\n\U{00E9}"
  const SPLIT: seq<seq<Byte>> := [[97, 10, 0xC3], [0xA9]]

  /** A text of two lines, cut inside the letter: both chunks are dropped, the finished line
      with them. */
  lemma SplitCharacter()
    ensures Joined(SPLIT) == EncodeAll(ACCENTED) && Lines(ACCENTED) == ["a", "\U{00E9}"]
    ensures Accepted(SPLIT) == "" && Lines("") == [] && !CutsBetween(ACCENTED, SPLIT)
  {
    SplitAccepted();
    SplitNotText(ACCENTED, SPLIT);
    SplitLines(ACCENTED, "\U{00E9}");
    NoLines();
  }

  lemma SplitNotText(text: string, chunks: seq<seq<Byte>>)
    requires Joined(chunks) == EncodeAll(text) && Accepted(chunks) == "" != text
    ensures !CutsBetween(text, chunks)
  {
    AcceptedIff(text, chunks);
  }

  lemma SplitAccepted()
    ensures Joined(SPLIT) == EncodeAll(ACCENTED) && Accepted(SPLIT) == ""
  {
    SplitBytes();
    NotDecoded();
    TwoChunks(SPLIT[0], SPLIT[1]);
    assert SPLIT == [SPLIT[0], SPLIT[1]];
    assert Kept(SPLIT[0]) == "" == Kept(SPLIT[1]);
  }

  lemma SplitBytes()
    ensures EncodeAll(ACCENTED) == [97, 10, 0xC3, 0xA9] == SPLIT[0] + SPLIT[1]
  {
    var letter := "\U{00E9}";
    assert ACCENTED == "a" + ("\n" + letter);
    EncodeAllConcat("a", "\n" + letter);
    EncodeAllConcat("\n", letter);
    assert EncodeAll("a") == [97] && EncodeAll("\n") == [10] && EncodeAll(letter) == [0xC3, 0xA9];
  }

  lemma TwoChunks(a: seq<Byte>, b: seq<Byte>)
    ensures Joined([a, b]) == a + b && Accepted([a, b]) == Kept(a) + Kept(b)
  {
    var none: seq<seq<Byte>> := [];
    assert [a, b][..1] == [a] && [a][..0] == none;
    assert Joined([a]) == a && Accepted([a]) == Kept(a);
  }

  lemma NoLines()
    ensures Lines("") == []
  {
    assert Closed("") + [Tail("")] == [""];
    assert [""][..0] == [];
  }

  lemma NotDecoded()
    ensures Decode([97, 10, 0xC3]) == None && Decode([0xA9]) == None
  {
    var bytes: seq<Byte> := [97, 10, 0xC3];
    assert bytes[1..] == [10, 0xC3] && bytes[1..][1..] == [0xC3];
    DecodeOneEncoded('a', [10, 0xC3]);
    DecodeOneEncoded('\n', [0xC3]);
    assert Encode('a') + [10, 0xC3] == bytes && Encode('\n') + [0xC3] == [10, 0xC3];
    assert DecodeOne([0xC3]) == None;
    assert Decode([0xC3]) == None;
    assert Decode([10, 0xC3]) == None;
  }

  lemma SplitLines(text: string, letter: string)
    requires |text| == 3 && text[0] == 'a' && text[1] == '\n' && text[2..] == letter && letter == "\U{00E9}"
    ensures Lines(text) == ["a", letter]
  {
    assert Find(text[1..], '\n') == 0;
    assert Find(text, '\n') == 1 && text[..1] == "a";
    CutOne(text, "a", letter);
    assert Find(letter[1..], '\n') == 0;
    NoMoreLines(letter);
    assert Closed(text) + [Tail(text)] == ["a", letter];
    KeepTwo("a", letter);
  }

  lemma KeepTwo(a: string, b: string)
    requires a != "" && b != ""
    ensures NonEmpty([a, b]) == [a, b]
  {
    assert [a, b][..1] == [a] && [a][..0] == [];
    assert NonEmpty([a]) == [a];
  }

  // ---------------------------------------------------------------- lemmas

  lemma NonEmptyConcat(a: seq<string>, b: seq<string>)
    ensures NonEmpty(a + b) == NonEmpty(a) + NonEmpty(b)
  {
    if b == [] {
      assert a + b == a;
    } else {
      var init := b[..|b| - 1];
      assert (a + b)[..|a + b| - 1] == a + init;
      NonEmptyConcat(a, init);
    }
  }

  /** Trimming to the last n early loses nothing that trimming late keeps. */
  lemma TrimTwice<T>(a: seq<T>, b: seq<T>, n: nat)
    ensures LastN(LastN(a, n) + b, n) == LastN(a + b, n)
  {
  }

  lemma PushAll(before: seq<string>, a: seq<string>, b: seq<string>)
    ensures LastN(LastN(before + NonEmpty(a), CAPACITY) + NonEmpty(b), CAPACITY)
         == LastN(before + NonEmpty(a + b), CAPACITY)
  {
    NonEmptyConcat(a, b);
    TrimTwice(before + NonEmpty(a), NonEmpty(b), CAPACITY);
    assert before + NonEmpty(a) + NonEmpty(b) == before + NonEmpty(a + b);
  }

  lemma PushMore(before: seq<string>, done: seq<string>, line: string)
    ensures LastN(LastN(before + NonEmpty(done), CAPACITY) + NonEmpty([line]), CAPACITY)
         == LastN(before + NonEmpty(done + [line]), CAPACITY)
  {
    PushAll(before, done, [line]);
  }

  /** The lines, each with its newline, one after the other. */
  function Terminated(lines: seq<string>): string {
    if lines == [] then "" else lines[0] + "\n" + Terminated(lines[1..])
  }

  /** Cutting a text into lines drops nothing of it. */
  lemma {:induction false} CutRebuilds(text: string)
    ensures Terminated(Closed(text)) + Tail(text) == text
    decreases |text|
  {
    var i := Find(text, '\n');
    if i < |text| {
      var rest := text[i + 1..];
      CutRebuilds(rest);
      assert Closed(text)[1..] == Closed(rest);
      assert text == text[..i] + "\n" + rest;
    }
  }

  lemma FindAppend(a: string, b: string)
    ensures Find(a + b, '\n') == if Find(a, '\n') < |a| then Find(a, '\n') else |a| + Find(b, '\n')
  {
    if a == [] {
      assert a + b == b;
    } else if a[0] != '\n' {
      assert (a + b)[1..] == a[1..] + b;
      FindAppend(a[1..], b);
    }
  }

  /** Cutting a text changes neither its closed lines nor its tail. */
  lemma {:induction false} Resume(text: string, more: string)
    ensures Closed(text + more) == Closed(text) + Closed(Tail(text) + more)
    ensures Tail(text + more) == Tail(Tail(text) + more)
    decreases |text|
  {
    FindAppend(text, more);
    var i := Find(text, '\n');
    if i < |text| {
      var line, rest, whole := text[..i], text[i + 1..], text + more;
      assert whole[..i] == line && whole[i + 1..] == rest + more;
      CutOne(whole, line, rest + more);
      CutOne(text, line, rest);
      Resume(rest, more);
      OneAhead(line, Closed(rest), Closed(Tail(rest) + more));
    } else {
      NoMoreLines(text);
      assert Closed(text) + Closed(text + more) == Closed(text + more);
    }
  }

  lemma OneAhead(line: string, a: seq<string>, b: seq<string>)
    ensures [line] + (a + b) == [line] + a + b
  {
  }

  lemma CutOne(text: string, line: string, rest: string)
    requires var i := Find(text, '\n'); i < |text| && line == text[..i] && rest == text[i + 1..]
    ensures Closed(text) == [line] + Closed(rest) && Tail(text) == Tail(rest)
  {
  }

  lemma Regroup(done: seq<string>, line: string, rest: seq<string>)
    ensures done + ([line] + rest) == done + [line] + rest
  {
  }

  lemma NoMoreLines(text: string)
    requires Find(text, '\n') == |text|
    ensures Closed(text) == [] && Tail(text) == text
  {
  }

  lemma TailOfTail(text: string)
    requires Closed(text) == []
    ensures Tail(text) == text
  {
  }

  /** No line of the ring holds a newline. */
  lemma {:induction false} LinesHoldNoNewline(text: string, k: nat)
    requires k < |Lines(text)|
    ensures Lines(text)[k] != "" && '\n' !in Lines(text)[k]
  {
    ClosedNoNewline(text);
    NonEmptyKeeps(Closed(text) + [Tail(text)], k);
  }

  lemma {:induction false} ClosedNoNewline(text: string)
    ensures forall line :: line in Closed(text) + [Tail(text)] ==> '\n' !in line
    decreases |text|
  {
    var i := Find(text, '\n');
    if i < |text| {
      ClosedNoNewline(text[i + 1..]);
    }
  }

  lemma {:induction false} NonEmptyKeeps(lines: seq<string>, k: nat)
    requires k < |NonEmpty(lines)|
    ensures NonEmpty(lines)[k] in lines && NonEmpty(lines)[k] != ""
  {
    var init := lines[..|lines| - 1];
    if k < |NonEmpty(init)| {
      NonEmptyKeeps(init, k);
    }
  }
}
