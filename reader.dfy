/** The streaming reader of src/reader.rs: an iterator that pulls bytes through a
    `BufRead`, parses one record at a time with `Item::parse`, consumes what the record
    used, and checks that the groups of the records never go back.

    `BufRead` is modelled as the whole stream `data` with two cursors: `pos`, the bytes
    consumed so far, and `filled`, the end of the bytes the buffer holds.  `fill_buf`
    returns `data[pos..filled]` and reads from the underlying source only when that
    window is empty; how much a read returns, or whether it fails, is the environment's
    choice, passed in as a `Poll`. */
module StreamReader {
  import opened Nom
  import opened Codec
  import opened Lexical
  import opened Records
  import Examples

  /** `reader::Error`. */
  datatype Error = Io | Parse

  /** What the underlying source does when `fill_buf` must read: return up to `n`
      bytes, or fail. */
  datatype Poll = Read(n: nat) | IoFail

  /** The outcome of one pass through the body of the loop in `next`:
      - `Emit(item)`: `Some(Ok(item))`;
      - `End`: `None`;
      - `Fail(e)`: `Some(Err(e))`;
      - `Retry`: the parser asked for more input, and the loop goes round again;
      - `Abort`: a panic (the `assert!` on groups, or the scanner of `in_curly_braces`
        indexing past the end). */
  datatype Step = Emit(item: Item) | End | Fail(err: Error) | Retry | Abort

  /** The reader's state: the two cursors of the buffer, and the group of the last
      record returned. */
  datatype State = State(pos: nat, filled: nat, group: Group)

  /** What the reader relies on of `Item::parse`: a record it returns used at least one
      byte, and what is left is no longer than the input.  `ItemParseProgresses` shows
      that the model of `Item::parse` has it. */
  ghost predicate Progressing(parse: Parser<byte, Item>) {
    forall i :: parse(i).Done? ==> |parse(i).rest| < |i|
  }

  lemma ItemParseProgresses()
    ensures Progressing(ParseItem)
  {
    forall i: seq<byte> ensures ParseItem(i).Done? ==> |ParseItem(i).rest| < |i| {
      ParseItemProgress(i);
    }
  }

  predicate ValidState(data: seq<byte>, st: State) {
    st.pos <= st.filled <= |data|
  }

  /** How many bytes a read of at most `n` bytes returns when `remaining` are left: a
      read returns no bytes only at the end of the stream. */
  function ReadSize(n: nat, remaining: nat): (k: nat)
    ensures k <= remaining
    ensures k == 0 <==> remaining == 0
    ensures 0 < n <= remaining ==> k == n
  {
    if remaining == 0 then 0 else if n == 0 then 1 else if n < remaining then n else remaining
  }

  /** `fill_buf`: the end of the buffered window afterwards, or `None` on an I/O error.
      A non-empty window is returned as it is, without reading. */
  function FillBuf(data: seq<byte>, st: State, poll: Poll): (f: Option<nat>)
    requires ValidState(data, st)
    ensures f.Some? ==> st.filled <= f.value <= |data|
    ensures st.pos < st.filled ==> f == Some(st.filled)
  {
    if st.pos < st.filled then Some(st.filled)
    else match poll
      case IoFail => None
      case Read(n) => Some(st.pos + ReadSize(n, |data| - st.pos))
  }

  /** The group check and update after a record is parsed. */
  function Accept(st: State, item: Item, pos: nat, filled: nat): (Step, State) {
    if GroupLe(st.group, ItemGroup(item)) then (Emit(item), State(pos, filled, ItemGroup(item)))
    else (Abort, State(pos, filled, st.group))
  }

  /** One pass through the loop of `Reader::next`, where `parse` is `Item::parse`. */
  function StepSpec(parse: Parser<byte, Item>, data: seq<byte>, st: State, poll: Poll): (r: (Step, State))
    requires Progressing(parse) && ValidState(data, st)
    ensures ValidState(data, r.1) && st.pos <= r.1.pos && st.filled <= r.1.filled
    ensures r.0.Emit? ==> st.pos < r.1.pos && GroupLe(st.group, r.1.group) && r.1.group == ItemGroup(r.0.item)
    ensures !r.0.Emit? ==> r.1.group == st.group
    ensures r.0 == Retry || r.0 == End || r.0.Fail? ==> r.1.pos == st.pos
  {
    match FillBuf(data, st, poll)
    case None => (Fail(Io), st)
    case Some(f) =>
      var buf := data[st.pos..f];
      if buf == [] then (End, State(st.pos, f, st.group))
      else
        match parse(buf)
        case Done(rest, item) => Accept(st, item, st.pos + (|buf| - |rest|), f)
        case Incomplete => (Retry, State(st.pos, f, st.group))
        case Error => (Fail(Parse), State(st.pos, f, st.group))
        case Failure => (Fail(Parse), State(st.pos, f, st.group))
        case Panic => (Abort, State(st.pos, f, st.group))
  }

  /** The loop of `next` while the environment answers the reads with `polls`: it goes
      round as long as the parser asks for more input.  With `polls` used up the loop
      is still running, which is `Retry`. */
  function RunSpec(parse: Parser<byte, Item>, data: seq<byte>, st: State, polls: seq<Poll>): (r: (Step, State))
    requires Progressing(parse) && ValidState(data, st)
    ensures ValidState(data, r.1) && st.pos <= r.1.pos && st.filled <= r.1.filled
    ensures r.0.Emit? ==> st.pos < r.1.pos && GroupLe(st.group, r.1.group) && r.1.group == ItemGroup(r.0.item)
    ensures !r.0.Emit? ==> r.1.group == st.group
    ensures r.0 == Retry || r.0 == End || r.0.Fail? ==> r.1.pos == st.pos
    decreases |polls|
  {
    if polls == [] then (Retry, st)
    else
      var (s, st') := StepSpec(parse, data, st, polls[0]);
      if s == Retry then RunSpec(parse, data, st', polls[1..]) else (s, st')
  }

  // ---------------------------------------------------------------- one pass

  /** Every pass keeps the cursors in order. */
  lemma StepValid(parse: Parser<byte, Item>, data: seq<byte>, st: State, poll: Poll)
    requires Progressing(parse) && ValidState(data, st)
    ensures ValidState(data, StepSpec(parse, data, st, poll).1)
  {
  }

  /** `next` returns `None` exactly when the buffer is empty and the source is at its
      end. */
  lemma StepEnd(parse: Parser<byte, Item>, data: seq<byte>, st: State, poll: Poll)
    requires Progressing(parse) && ValidState(data, st)
    ensures StepSpec(parse, data, st, poll).0 == End <==> st.pos == st.filled == |data| && poll.Read?
    ensures StepSpec(parse, data, st, poll).0 == End ==> StepSpec(parse, data, st, poll).1 == st
  {
  }

  /** An I/O error is possible only when the buffer was empty, and changes nothing. */
  lemma StepIo(parse: Parser<byte, Item>, data: seq<byte>, st: State, poll: Poll)
    requires Progressing(parse) && ValidState(data, st)
    ensures StepSpec(parse, data, st, poll).0 == Fail(Io) <==> st.pos == st.filled && poll == IoFail
    ensures StepSpec(parse, data, st, poll).0 == Fail(Io) ==> StepSpec(parse, data, st, poll).1 == st
  {
  }

  /** A record is returned only if `Item::parse` of the window produced it.  Exactly the
      bytes it used are consumed, something is always consumed, and the new group is the
      record's, which is not below the old one. */
  lemma StepEmit(parse: Parser<byte, Item>, data: seq<byte>, st: State, poll: Poll)
    requires Progressing(parse) && ValidState(data, st)
    requires StepSpec(parse, data, st, poll).0.Emit?
    ensures var (s, st') := StepSpec(parse, data, st, poll);
            var buf := data[st.pos..st'.filled];
            && parse(buf).Done? && parse(buf).value == s.item
            && st'.pos == st.pos + (|buf| - |parse(buf).rest|)
            && st.pos < st'.pos <= st'.filled
            && st'.group == ItemGroup(s.item) && GroupLe(st.group, st'.group)
  {
  }

  /** A parse error consumes nothing and keeps the group. */
  lemma StepParseError(parse: Parser<byte, Item>, data: seq<byte>, st: State, poll: Poll)
    requires Progressing(parse) && ValidState(data, st)
    requires StepSpec(parse, data, st, poll).0 == Fail(Parse)
    ensures var st' := StepSpec(parse, data, st, poll).1;
            var buf := data[st.pos..st'.filled];
            && (parse(buf).Error? || parse(buf).Failure?)
            && st'.pos == st.pos && st'.group == st.group
  {
  }

  /** The group never goes back, whatever a pass does. */
  lemma StepGroup(parse: Parser<byte, Item>, data: seq<byte>, st: State, poll: Poll)
    requires Progressing(parse) && ValidState(data, st)
    ensures GroupLe(st.group, StepSpec(parse, data, st, poll).1.group)
  {
    GroupTotalOrder(st.group, st.group, st.group);
  }

  // ---------------------------------------------------------------- the loop

  /** A retry leaves a non-empty window, which the next `fill_buf` hands back unchanged,
      so the next pass parses the same bytes and retries again, whatever the source
      would do. */
  lemma RetryStuck(parse: Parser<byte, Item>, data: seq<byte>, st: State, poll: Poll, poll': Poll)
    requires Progressing(parse) && ValidState(data, st)
    requires StepSpec(parse, data, st, poll).0 == Retry
    ensures var st' := StepSpec(parse, data, st, poll).1;
            && st'.pos < st'.filled && st'.pos == st.pos && st'.group == st.group
            && StepSpec(parse, data, st', poll') == (Retry, st')
  {
  }

  /** Once a pass retries, the loop of `next` never leaves: for every way the source may
      answer, it is still running. */
  lemma {:induction false} RetryForever(parse: Parser<byte, Item>, data: seq<byte>, st: State, polls: seq<Poll>)
    requires Progressing(parse) && ValidState(data, st)
    requires polls != [] && StepSpec(parse, data, st, polls[0]).0 == Retry
    ensures RunSpec(parse, data, st, polls) == (Retry, StepSpec(parse, data, st, polls[0]).1)
    decreases |polls|
  {
    var st' := StepSpec(parse, data, st, polls[0]).1;
    if |polls| > 1 {
      RetryStuck(parse, data, st, polls[0], polls[1]);
      StepValid(parse, data, st, polls[0]);
      RetryForever(parse, data, st', polls[1..]);
    }
  }

  /** A buffer that holds only spaces, tabs and line breaks makes the pass retry: at the
      end of a file that ends in a line break, `next` hangs instead of returning
      `None`. */
  lemma BlankWindowRetries(data: seq<byte>, st: State, poll: Poll)
    requires ValidState(data, st) && st.pos < st.filled
    requires forall j :: st.pos <= j < st.filled ==> IsBlank(data[j])
    ensures Progressing(ParseItem)
    ensures StepSpec(ParseItem, data, st, poll) == (Retry, st)
  {
    ItemParseProgresses();
    var buf := data[st.pos..st.filled];
    assert forall j :: 0 <= j < |buf| ==> IsBlank(buf[j]) by {
      forall j | 0 <= j < |buf| ensures IsBlank(buf[j]) {
        assert buf[j] == data[st.pos + j];
      }
    }
    BlanksIncomplete(buf);
  }

  /** The state after a file's last record when the file ends in a line break. */
  lemma TrailingLineBreakHangs(data: seq<byte>, g: Group, polls: seq<Poll>)
    requires data != [] && data[|data| - 1] == '\n' as int && polls != []
    ensures Progressing(ParseItem)
    ensures RunSpec(ParseItem, data, State(|data| - 1, |data|, g), polls) == (Retry, State(|data| - 1, |data|, g))
  {
    var st := State(|data| - 1, |data|, g);
    BlankWindowRetries(data, st, polls[0]);
    RetryForever(ParseItem, data, st, polls);
  }

  // ---------------------------------------------------------------- groups across calls

  /** Successive calls of `next`, each answered by its own polls: the steps returned and
      the final state. */
  function Session(parse: Parser<byte, Item>, data: seq<byte>, st: State, calls: seq<seq<Poll>>): (r: (seq<Step>, State))
    requires Progressing(parse) && ValidState(data, st)
    ensures |r.0| == |calls| && ValidState(data, r.1)
    decreases |calls|
  {
    if calls == [] then ([], st)
    else
      RunValid(parse, data, st, calls[0]);
      var (s, st') := RunSpec(parse, data, st, calls[0]);
      var (ss, st'') := Session(parse, data, st', calls[1..]);
      ([s] + ss, st'')
  }

  lemma {:induction false} RunValid(parse: Parser<byte, Item>, data: seq<byte>, st: State, polls: seq<Poll>)
    requires Progressing(parse) && ValidState(data, st)
    ensures ValidState(data, RunSpec(parse, data, st, polls).1)
    ensures GroupLe(st.group, RunSpec(parse, data, st, polls).1.group)
    decreases |polls|
  {
    GroupTotalOrder(st.group, st.group, st.group);
    if polls != [] {
      var st' := StepSpec(parse, data, st, polls[0]).1;
      StepValid(parse, data, st, polls[0]);
      StepGroup(parse, data, st, polls[0]);
      if StepSpec(parse, data, st, polls[0]).0 == Retry {
        RunValid(parse, data, st', polls[1..]);
        GroupTotalOrder(st.group, st'.group, RunSpec(parse, data, st', polls[1..]).1.group);
      }
    }
  }

  /** A call that returns a record leaves the record's group as the reader's group. */
  lemma {:induction false} RunEmit(parse: Parser<byte, Item>, data: seq<byte>, st: State, polls: seq<Poll>)
    requires Progressing(parse) && ValidState(data, st)
    requires RunSpec(parse, data, st, polls).0.Emit?
    ensures RunSpec(parse, data, st, polls).1.group == ItemGroup(RunSpec(parse, data, st, polls).0.item)
    decreases |polls|
  {
    var st' := StepSpec(parse, data, st, polls[0]).1;
    StepValid(parse, data, st, polls[0]);
    if StepSpec(parse, data, st, polls[0]).0 == Retry {
      RunEmit(parse, data, st', polls[1..]);
    } else {
      StepEmit(parse, data, st, polls[0]);
    }
  }

  /** The records among `ss` come in the order of their groups, none below `g`. */
  ghost predicate OrderedFrom(g: Group, ss: seq<Step>) {
    && (forall j :: 0 <= j < |ss| && ss[j].Emit? ==> GroupLe(g, ItemGroup(ss[j].item)))
    && (forall j, k :: 0 <= j < k < |ss| && ss[j].Emit? && ss[k].Emit? ==>
          GroupLe(ItemGroup(ss[j].item), ItemGroup(ss[k].item)))
  }

  lemma OrderedCons(g: Group, g': Group, s: Step, tl: seq<Step>)
    requires GroupLe(g, g') && OrderedFrom(g', tl)
    requires s.Emit? ==> ItemGroup(s.item) == g'
    ensures OrderedFrom(g, [s] + tl)
  {
    var ss := [s] + tl;
    forall j | 0 <= j < |ss| && ss[j].Emit?
      ensures GroupLe(g, ItemGroup(ss[j].item))
    {
      if j > 0 {
        assert ss[j] == tl[j - 1];
        GroupTotalOrder(g, g', ItemGroup(ss[j].item));
      }
    }
    forall j, k | 0 <= j < k < |ss| && ss[j].Emit? && ss[k].Emit?
      ensures GroupLe(ItemGroup(ss[j].item), ItemGroup(ss[k].item))
    {
      assert ss[k] == tl[k - 1];
      if j > 0 {
        assert ss[j] == tl[j - 1];
      }
    }
  }

  /** The records one reader returns come in the order of their groups, none below the
      group it started from: the promise the `assert!` in `next` keeps. */
  lemma {:induction false} SessionOrdered(parse: Parser<byte, Item>, data: seq<byte>, st: State, calls: seq<seq<Poll>>)
    requires Progressing(parse) && ValidState(data, st)
    ensures OrderedFrom(st.group, Session(parse, data, st, calls).0)
    decreases |calls|
  {
    if calls != [] {
      RunValid(parse, data, st, calls[0]);
      var (s, st') := RunSpec(parse, data, st, calls[0]);
      SessionOrdered(parse, data, st', calls[1..]);
      if s.Emit? {
        RunEmit(parse, data, st, calls[0]);
      }
      OrderedCons(st.group, st'.group, s, Session(parse, data, st', calls[1..]).0);
    }
  }

  // ---------------------------------------------------------------- the class

  /** `Reader<R>`: the buffered source and the group of the last record.  `parse` is the
      record parser `next` calls, which the constructor sets to `Item::parse`. */
  class Reader {
    const parse: Parser<byte, Item>
    const data: seq<byte>
    var pos: nat
    var filled: nat
    var group: Group

    ghost predicate Valid()
      reads this
    {
      Progressing(parse) && pos <= filled <= |data|
    }

    function Current(): State
      reads this
    {
      State(pos, filled, group)
    }

    /** `Reader::new`: nothing buffered and the group `Flag`. */
    constructor (data: seq<byte>)
      ensures Valid() && this.data == data && parse == ParseItem
      ensures pos == 0 && filled == 0 && group == Flag
    {
      ItemParseProgresses();
      this.parse := ParseItem;
      this.data := data;
      pos, filled, group := 0, 0, Flag;
    }

    /** One pass through the loop of `next`: `fill_buf`, then `Item::parse` of the window. */
    method Pass(poll: Poll) returns (s: Step)
      requires Valid()
      modifies this
      ensures Valid()
      ensures (s, Current()) == StepSpec(parse, data, old(Current()), poll)
    {
      if pos == filled && poll.IoFail? {
        // fill_buf had to read, and the read failed
        return Fail(Io);
      }
      if pos == filled {
        filled := pos + ReadSize(poll.n, |data| - pos);
      }
      var buf := data[pos..filled];
      if buf == [] {
        return End;
      }
      match parse(buf)
      case Done(rest, item) =>
        pos := pos + (|buf| - |rest|);
        if GroupLe(group, ItemGroup(item)) {
          group := ItemGroup(item);
          s := Emit(item);
        } else {
          s := Abort;
        }
      case Incomplete =>
        s := Retry;
      case Error =>
        s := Fail(Parse);
      case Failure =>
        s := Fail(Parse);
      case Panic =>
        s := Abort;
    }

    /** `Iterator::next`, run while the source answers the reads with `polls`: the loop
        goes round while the parser asks for more input. */
    method Next(polls: seq<Poll>) returns (s: Step)
      requires Valid()
      modifies this
      ensures Valid()
      ensures (s, Current()) == RunSpec(parse, data, old(Current()), polls)
    {
      s := Retry;
      var k := 0;
      while k < |polls| && s == Retry
        invariant 0 <= k <= |polls| && Valid()
        invariant s == Retry ==> RunSpec(parse, data, old(Current()), polls) == RunSpec(parse, data, Current(), polls[k..])
        invariant s != Retry ==> RunSpec(parse, data, old(Current()), polls) == (s, Current())
        decreases |polls| - k
      {
        assert polls[k..][0] == polls[k] && polls[k..][1..] == polls[k + 1..];
        s := Pass(polls[k]);
        k := k + 1;
      }
    }
  }

  // ---------------------------------------------------------------- reading on

  /* The `Reader` above never reads beyond a window it could not parse (see
     `RetryForever`).  Its commented-out `buf` and `pos` fields (src/reader.rs:12-13), and
     the command-line tool handing `Reader::new` a plain `File` (sie4-cli/src/main.rs:158),
     point at a reader with a buffer of its own that grows until a record fits.
     `BufferedReader` is such a reader: on `Incomplete` it appends the next `chunk` bytes
     of the stream and parses again.  When the stream has nothing more to give while the
     parser still asks for more, the sequence ends with `None` if only blanks are left;
     a record cut off by the end of the stream is a parse error, since `Item::parse`
     counts incomplete input as an error (src/item.rs:247-249). */

  predicate AllBlank(s: seq<byte>) {
    forall j :: 0 <= j < |s| ==> IsBlank(s[j])
  }

  /** What the corrected `next` makes of its window: an empty window asks for more input,
      like a record cut short. */
  function ParseWindow(parse: Parser<byte, Item>, buf: seq<byte>): Res<byte, Item> {
    if buf == [] then Incomplete else parse(buf)
  }

  /** The state after the window has grown by the next read. */
  function Grown(data: seq<byte>, st: State, chunk: nat): State
    requires ValidState(data, st)
  {
    State(st.pos, st.filled + ReadSize(chunk, |data| - st.filled), st.group)
  }

  /** What a call of the corrected `next` returns, and the state after it. */
  function DeliverSpec(parse: Parser<byte, Item>, data: seq<byte>, st: State, chunk: nat): (r: (Step, State))
    requires Progressing(parse) && ValidState(data, st)
    ensures ValidState(data, r.1) && st.filled <= r.1.filled
    decreases |data| - st.filled
  {
    var buf := data[st.pos..st.filled];
    match ParseWindow(parse, buf)
    case Done(rest, item) => Accept(st, item, st.pos + (|buf| - |rest|), st.filled)
    case Incomplete =>
      if st.filled < |data| then DeliverSpec(parse, data, Grown(data, st, chunk), chunk)
      else if AllBlank(data[st.pos..]) then (End, st)
      else (Fail(Parse), st)
    case Error => (Fail(Parse), st)
    case Failure => (Fail(Parse), st)
    case Panic => (Abort, st)
  }

  /** The corrected `next` always returns: it never ends in `Retry`. */
  lemma {:induction false} DeliverReturns(parse: Parser<byte, Item>, data: seq<byte>, st: State, chunk: nat)
    requires Progressing(parse) && ValidState(data, st)
    ensures DeliverSpec(parse, data, st, chunk).0 != Retry
    decreases |data| - st.filled
  {
    if ParseWindow(parse, data[st.pos..st.filled]).Incomplete? && st.filled < |data| {
      DeliverReturns(parse, data, Grown(data, st, chunk), chunk);
    }
  }

  /** A record is returned only if `Item::parse` of the grown window produced it; exactly
      the bytes it used are consumed, something always is, and the group goes up to the
      record's. */
  lemma {:induction false} DeliverEmit(parse: Parser<byte, Item>, data: seq<byte>, st: State, chunk: nat)
    requires Progressing(parse) && ValidState(data, st)
    requires DeliverSpec(parse, data, st, chunk).0.Emit?
    ensures var (s, st') := DeliverSpec(parse, data, st, chunk);
            var buf := data[st.pos..st'.filled];
            && st.filled <= st'.filled <= |data|
            && parse(buf).Done? && parse(buf).value == s.item
            && st'.pos == st.pos + (|buf| - |parse(buf).rest|)
            && st.pos < st'.pos <= st'.filled
            && st'.group == ItemGroup(s.item) && GroupLe(st.group, st'.group)
    decreases |data| - st.filled
  {
    if ParseWindow(parse, data[st.pos..st.filled]).Incomplete? && st.filled < |data| {
      DeliverEmit(parse, data, Grown(data, st, chunk), chunk);
    }
  }

  /** `None` comes only at the end of the stream, when what is left of it is blanks, on
      which the parser asks for more; it consumes nothing and keeps the group. */
  lemma {:induction false} DeliverEnd(parse: Parser<byte, Item>, data: seq<byte>, st: State, chunk: nat)
    requires Progressing(parse) && ValidState(data, st)
    requires DeliverSpec(parse, data, st, chunk).0 == End
    ensures AllBlank(data[st.pos..])
    ensures data[st.pos..] == [] || parse(data[st.pos..]).Incomplete?
    ensures DeliverSpec(parse, data, st, chunk).1 == State(st.pos, |data|, st.group)
    decreases |data| - st.filled
  {
    if st.filled < |data| {
      DeliverEnd(parse, data, Grown(data, st, chunk), chunk);
    } else {
      assert data[st.pos..st.filled] == data[st.pos..];
    }
  }

  /** A parse error consumes nothing and keeps the group: `Item::parse` refused the
      window with a recoverable error or a hard failure, or the stream ended inside a
      record, which the parser still asks more of. */
  lemma {:induction false} DeliverParseError(parse: Parser<byte, Item>, data: seq<byte>, st: State, chunk: nat)
    requires Progressing(parse) && ValidState(data, st)
    requires DeliverSpec(parse, data, st, chunk).0 == Fail(Parse)
    ensures var st' := DeliverSpec(parse, data, st, chunk).1;
            var buf := data[st.pos..st'.filled];
            && st'.pos == st.pos && st'.group == st.group
            && buf != []
            && (|| parse(buf).Error? || parse(buf).Failure?
                || (st'.filled == |data| && parse(buf).Incomplete? && !AllBlank(buf)))
    decreases |data| - st.filled
  {
    if ParseWindow(parse, data[st.pos..st.filled]).Incomplete? && st.filled < |data| {
      DeliverParseError(parse, data, Grown(data, st, chunk), chunk);
    } else {
      assert st.filled == |data| ==> data[st.pos..st.filled] == data[st.pos..];
    }
  }

  /** The converse of `DeliverEnd` and its parse-error partner: when the parser asks for
      more of every window from the current one up to the whole rest of the stream, the
      call returns `None` if that rest is blanks, and a parse error if it is a record cut
      off. */
  lemma {:induction false} WaitingTailEnds(parse: Parser<byte, Item>, data: seq<byte>, st: State, chunk: nat)
    requires Progressing(parse) && ValidState(data, st)
    requires forall j :: st.filled <= j <= |data| ==> ParseWindow(parse, data[st.pos..j]).Incomplete?
    ensures DeliverSpec(parse, data, st, chunk)
            == (if AllBlank(data[st.pos..]) then End else Fail(Parse), State(st.pos, |data|, st.group))
    decreases |data| - st.filled
  {
    assert ParseWindow(parse, data[st.pos..st.filled]).Incomplete?;
    if st.filled < |data| {
      WaitingTailEnds(parse, data, Grown(data, st, chunk), chunk);
    }
  }

  /** What `Item::parse` does with blanks alone: it asks for more input. */
  ghost predicate BlanksWait(parse: Parser<byte, Item>) {
    forall i :: AllBlank(i) ==> parse(i).Incomplete?
  }

  lemma ItemParseWaits()
    ensures BlanksWait(ParseItem)
  {
    forall i: seq<byte> | AllBlank(i) ensures ParseItem(i).Incomplete? {
      BlanksIncomplete(i);
    }
  }

  /** Only blanks left: the call returns `None`. */
  lemma BlankTailEnds(parse: Parser<byte, Item>, data: seq<byte>, st: State, chunk: nat)
    requires Progressing(parse) && BlanksWait(parse) && ValidState(data, st)
    requires AllBlank(data[st.pos..])
    ensures DeliverSpec(parse, data, st, chunk) == (End, State(st.pos, |data|, st.group))
  {
    forall j | st.filled <= j <= |data| ensures ParseWindow(parse, data[st.pos..j]).Incomplete? {
      var buf := data[st.pos..j];
      assert AllBlank(buf) by {
        forall m | 0 <= m < |buf| ensures IsBlank(buf[m]) {
          assert buf[m] == data[st.pos..][m];
        }
      }
    }
    WaitingTailEnds(parse, data, st, chunk);
  }

  /** The file of `TrailingLineBreakHangs`: the corrected reader returns `None`. */
  lemma TrailingLineBreakEnds(data: seq<byte>, g: Group, chunk: nat)
    requires data != [] && data[|data| - 1] == '\n' as int
    ensures Progressing(ParseItem)
    ensures DeliverSpec(ParseItem, data, State(|data| - 1, |data|, g), chunk) == (End, State(|data| - 1, |data|, g))
  {
    ItemParseProgresses();
    ItemParseWaits();
    assert data[|data| - 1..] == ['\n' as int];
    BlankTailEnds(ParseItem, data, State(|data| - 1, |data|, g), chunk);
  }

  /** A stream that stops inside a record, read in one go: the parser asks more of the
      whole stream, and the corrected reader reports a parse error rather than ending. */
  lemma CutOffFails(parse: Parser<byte, Item>, data: seq<byte>, g: Group, chunk: nat)
    requires Progressing(parse) && data != [] && !IsBlank(data[0]) && parse(data).Incomplete?
    requires |data| <= chunk
    ensures DeliverSpec(parse, data, State(0, 0, g), chunk) == (Fail(Parse), State(0, |data|, g))
  {
    assert data[0..|data|] == data[0..] == data;
    assert Grown(data, State(0, 0, g), chunk) == State(0, |data|, g);
  }

  /** The cut-off TRANS line of the src/item.rs:494-526 test as the whole stream. */
  lemma CutOffTransFails(g: Group)
    ensures Progressing(ParseItem)
    ensures var data := ['#' as int] + LabelBytes(Trans)
                        + Ascii(" " + "1930" + " " + "{}" + " " + "583.52" + " " + "\"Stonks\"");
            DeliverSpec(ParseItem, data, State(0, 0, g), |data|) == (Fail(Parse), State(0, |data|, g))
  {
    ItemParseProgresses();
    var b := Ascii(" " + "1930" + " " + "{}" + " " + "583.52" + " " + "\"Stonks\"");
    Examples.Trans3Item(b);
    CutOffFails(ParseItem, ['#' as int] + LabelBytes(Trans) + b, g, |['#' as int] + LabelBytes(Trans) + b|);
  }

  /** The corrected reader: a buffer of its own over the stream, grown by `chunk` bytes at
      a time. */
  class BufferedReader {
    const parse: Parser<byte, Item>
    const data: seq<byte>
    var pos: nat
    var filled: nat
    var group: Group

    ghost predicate Valid()
      reads this
    {
      Progressing(parse) && pos <= filled <= |data|
    }

    function Current(): State
      reads this
    {
      State(pos, filled, group)
    }

    constructor (data: seq<byte>)
      ensures Valid() && this.data == data && parse == ParseItem
      ensures pos == 0 && filled == 0 && group == Flag
    {
      ItemParseProgresses();
      this.parse := ParseItem;
      this.data := data;
      pos, filled, group := 0, 0, Flag;
    }

    /** `next`, reading on while the parser asks for more; it always returns. */
    method Next(chunk: nat) returns (s: Step)
      requires Valid()
      modifies this
      ensures Valid()
      ensures (s, Current()) == DeliverSpec(parse, data, old(Current()), chunk)
      ensures s != Retry
    {
      DeliverReturns(parse, data, Current(), chunk);
      while true
        invariant Valid() && pos == old(pos) && group == old(group)
        invariant DeliverSpec(parse, data, Current(), chunk) == DeliverSpec(parse, data, old(Current()), chunk)
        decreases |data| - filled
      {
        var buf := data[pos..filled];
        match ParseWindow(parse, buf)
        case Done(rest, item) =>
          pos := pos + (|buf| - |rest|);
          if GroupLe(group, ItemGroup(item)) {
            group := ItemGroup(item);
            return Emit(item);
          }
          return Abort;
        case Incomplete =>
          if filled == |data| {
            if AllBlank(data[pos..]) {
              return End;
            }
            return Fail(Parse);
          }
          filled := filled + ReadSize(chunk, |data| - filled);
        case Error =>
          return Fail(Parse);
        case Failure =>
          return Fail(Parse);
        case Panic =>
          return Abort;
      }
    }
  }
}
