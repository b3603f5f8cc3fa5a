/**
 The streaming filter that hides the think tags of a generated text, src/cli/ds4_cli.c:333-427. Output is a list of
 events: bytes, and switching grey on and off.
 */
module TagFilter {
  import opened ByteEncoding

  /** "<think>" and "</think>" */
  const OPEN: seq<byte> := [0x3c, 0x74, 0x68, 0x69, 0x6e, 0x6b, 0x3e]
  const CLOSE: seq<byte> := [0x3c, 0x2f, 0x74, 0x68, 0x69, 0x6e, 0x6b, 0x3e]
  const NEWLINE: byte := 10
  const BUFFER: nat := 16

  datatype Event = Out(b: byte) | Grey | Reset

  /** The printer's fields, with everything written so far. */
  datatype Printer = Printer(inThink: bool, colorOpen: bool, useColor: bool, lastNewline: bool, pending: seq<byte>,
                             output: seq<Event>)

  predicate HasPrefix(p: seq<byte>, prefix: seq<byte>) {
    |p| >= |prefix| && p[..|prefix|] == prefix
  }

  predicate IsPartialPrefix(p: seq<byte>, prefix: seq<byte>) {
    |p| < |prefix| && prefix[..|p|] == p
  }

  /** A nonempty text that may still become a tag. */
  predicate MayBecomeTag(p: seq<byte>) {
    |p| > 0 && p[0] == 0x3c && (IsPartialPrefix(p, OPEN) || IsPartialPrefix(p, CLOSE))
  }

  function SetGrey(p: Printer): Printer {
    if p.useColor && !p.colorOpen then p.(colorOpen := true, output := p.output + [Grey]) else p
  }

  function ResetColor(p: Printer): Printer {
    if p.useColor && p.colorOpen then p.(colorOpen := false, output := p.output + [Reset]) else p
  }

  function WriteChar(p: Printer, c: byte): Printer {
    var q := if p.inThink then SetGrey(p) else p;
    q.(output := q.output + [Out(c)], lastNewline := c == NEWLINE)
  }

  /** What a closing tag does. */
  function LeaveThink(p: Printer): Printer {
    var q := ResetColor(p.(inThink := false));
    if q.lastNewline then q else q.(output := q.output + [Out(NEWLINE)], lastNewline := true)
  }

  /** Scans a buffer from its start; an unfinished tag at the end is kept unless this is the end of the text. */
  function Scan(p: Printer, buf: seq<byte>, finish: bool): Printer
    decreases |buf|
  {
    if |buf| == 0 then p
    else if HasPrefix(buf, OPEN) then Scan(p.(inThink := true), buf[|OPEN|..], finish)
    else if HasPrefix(buf, CLOSE) then Scan(LeaveThink(p), buf[|CLOSE|..], finish)
    else if !finish && MayBecomeTag(buf) then p.(pending := if |buf| < BUFFER then buf else p.pending)
    else Scan(WriteChar(p, buf[0]), buf[1..], finish)
  }

  lemma ScanStep(p: Printer, buf: seq<byte>, finish: bool)
    ensures Scan(p, buf, finish) ==
      if |buf| == 0 then p
      else if HasPrefix(buf, OPEN) then Scan(p.(inThink := true), buf[|OPEN|..], finish)
      else if HasPrefix(buf, CLOSE) then Scan(LeaveThink(p), buf[|CLOSE|..], finish)
      else if !finish && MayBecomeTag(buf) then p.(pending := if |buf| < BUFFER then buf else p.pending)
      else Scan(WriteChar(p, buf[0]), buf[1..], finish)
  {
  }

  /** token_printer_process */
  function Process(p: Printer, text: seq<byte>, finish: bool): Printer {
    Scan(p.(pending := []), p.pending + text, finish)
  }

  /** token_printer_finish, with the filter on */
  function Finish(p: Printer): Printer {
    ResetColor(Process(p, [], true))
  }

  // ---- the pending text ------------------------------------------------------------------------

  /** What the fields of a printer in use keep. */
  ghost predicate Kept(p: Printer) {
    && (p.pending == [] || MayBecomeTag(p.pending))
    && |p.pending| < BUFFER
    && (p.colorOpen ==> p.inThink && p.useColor)
  }

  /** Pending text is always a proper prefix of a tag that fits its buffer, and grey is on only inside a thought. */
  lemma {:induction false} ScanKeeps(p: Printer, buf: seq<byte>, finish: bool)
    requires Kept(p) && p.pending == []
    ensures Kept(Scan(p, buf, finish))
    ensures finish ==> Scan(p, buf, finish).pending == []
    decreases |buf|
  {
    hide HasPrefix;
    if |buf| == 0 {
    } else if HasPrefix(buf, OPEN) {
      PrefixLength(buf, OPEN);
      ScanKeeps(p.(inThink := true), buf[|OPEN|..], finish);
    } else if HasPrefix(buf, CLOSE) {
      PrefixLength(buf, CLOSE);
      ScanKeeps(LeaveThink(p), buf[|CLOSE|..], finish);
    } else if !finish && MayBecomeTag(buf) {
      assert |buf| < |CLOSE|;
    } else {
      ScanKeeps(WriteChar(p, buf[0]), buf[1..], finish);
    }
  }

  lemma ProcessKeeps(p: Printer, text: seq<byte>, finish: bool)
    requires Kept(p)
    ensures Kept(Process(p, text, finish))
    ensures finish ==> Process(p, text, finish).pending == []
  {
    hide Scan;
    ScanKeeps(p.(pending := []), p.pending + text, finish);
  }

  // ---- chunks ---------------------------------------------------------------------------------------

  lemma PrefixLength(p: seq<byte>, prefix: seq<byte>)
    requires HasPrefix(p, prefix)
    ensures |p| >= |prefix|
  {
  }

  lemma PrefixAt(p: seq<byte>, prefix: seq<byte>, i: nat)
    requires HasPrefix(p, prefix) && i < |prefix|
    ensures i < |p| && p[i] == prefix[i]
  {
    assert p[..|prefix|][i] == p[i];
  }

  lemma PartialAt(p: seq<byte>, prefix: seq<byte>, i: nat)
    requires IsPartialPrefix(p, prefix) && i < |p|
    ensures i < |prefix| && p[i] == prefix[i]
  {
    assert prefix[..|p|][i] == prefix[i];
  }

  /** Where a buffer that neither starts with a tag nor may become one differs from it. */
  lemma Differs(x: seq<byte>, tag: seq<byte>) returns (k: nat)
    requires !HasPrefix(x, tag) && !IsPartialPrefix(x, tag)
    ensures k < |x| && k < |tag| && x[k] != tag[k]
  {
    var n := if |x| < |tag| then |x| else |tag|;
    assert x[..n] != tag[..n] by { assert x[..|x|] == x && tag[..|tag|] == tag; }
    k :| 0 <= k < n && x[..n][k] != tag[..n][k];
  }

  /** Such a buffer stays that way when text is added. */
  lemma NoTagStays(x: seq<byte>, b: seq<byte>, tag: seq<byte>)
    requires !HasPrefix(x, tag) && !IsPartialPrefix(x, tag)
    ensures !HasPrefix(x + b, tag) && !IsPartialPrefix(x + b, tag)
  {
    var k := Differs(x, tag);
    hide HasPrefix, IsPartialPrefix;
    assert (x + b)[k] != tag[k];
    if HasPrefix(x + b, tag) { PrefixAt(x + b, tag, k); }
    if IsPartialPrefix(x + b, tag) { PartialAt(x + b, tag, k); }
  }

  lemma TagStays(x: seq<byte>, b: seq<byte>, tag: seq<byte>)
    requires HasPrefix(x, tag)
    ensures HasPrefix(x + b, tag) && (x + b)[|tag|..] == x[|tag|..] + b
  {
    assert (x + b)[..|tag|] == x[..|tag|];
  }

  lemma CloseIsNotOpen(x: seq<byte>)
    requires HasPrefix(x, CLOSE)
    ensures !HasPrefix(x, OPEN)
  {
    hide HasPrefix;
    PrefixAt(x, CLOSE, 1);
    if HasPrefix(x, OPEN) { PrefixAt(x, OPEN, 1); }
  }

  /** Scanning x and then b, with what x left pending in front, is scanning them at once. */
  lemma {:induction false} ScanSplit(p: Printer, x: seq<byte>, b: seq<byte>, finish: bool)
    requires p.pending == []
    ensures var q := Scan(p, x, false);
      Scan(q.(pending := []), q.pending + b, finish) == Scan(p, x + b, finish)
    decreases |x|
  {
    hide HasPrefix, IsPartialPrefix, WriteChar, LeaveThink;
    if |x| == 0 {
      assert p.(pending := []) == p;
      assert [] + b == b && x + b == b;
    } else if HasPrefix(x, OPEN) {
      TagStays(x, b, OPEN);
      ScanSplit(p.(inThink := true), x[|OPEN|..], b, finish);
    } else if HasPrefix(x, CLOSE) {
      TagStays(x, b, CLOSE);
      CloseIsNotOpen(x + b);
      LeaveThinkPending(p);
      ScanSplit(LeaveThink(p), x[|CLOSE|..], b, finish);
    } else if MayBecomeTag(x) {
      MayBecomeIsShort(x);
      assert p.(pending := x).(pending := []) == p;
    } else {
      NoTag(x, b);
      WriteCharPending(p, x[0]);
      assert (x + b)[1..] == x[1..] + b && (x + b)[0] == x[0];
      ScanSplit(WriteChar(p, x[0]), x[1..], b, finish);
    }
  }

  lemma MayBecomeIsShort(x: seq<byte>)
    requires MayBecomeTag(x)
    ensures |x| < BUFFER
  {
  }

  lemma LeaveThinkPending(p: Printer)
    ensures LeaveThink(p).pending == p.pending
  {
  }

  lemma WriteCharPending(p: Printer, c: byte)
    ensures WriteChar(p, c).pending == p.pending
  {
  }

  lemma NoTag(x: seq<byte>, b: seq<byte>)
    requires |x| > 0 && !HasPrefix(x, OPEN) && !HasPrefix(x, CLOSE) && !MayBecomeTag(x)
    ensures !HasPrefix(x + b, OPEN) && !HasPrefix(x + b, CLOSE) && !MayBecomeTag(x + b)
  {
    hide HasPrefix, IsPartialPrefix;
    if IsPartialPrefix(x, OPEN) { PartialAt(x, OPEN, 0); }
    if IsPartialPrefix(x, CLOSE) { PartialAt(x, CLOSE, 0); }
    NoTagStays(x, b, OPEN);
    NoTagStays(x, b, CLOSE);
  }

  /** Two chunks are one chunk. */
  lemma ProcessSplit(p: Printer, a: seq<byte>, b: seq<byte>, finish: bool)
    ensures Process(Process(p, a, false), b, finish) == Process(p, a + b, finish)
  {
    hide Scan;
    ScanSplit(p.(pending := []), p.pending + a, b, finish);
    assert p.pending + a + b == p.pending + (a + b);
  }

  function ProcessAll(p: Printer, chunks: seq<seq<byte>>): Printer {
    if |chunks| == 0 then p else Process(ProcessAll(p, chunks[..|chunks| - 1]), chunks[|chunks| - 1], false)
  }

  function Joined(chunks: seq<seq<byte>>): seq<byte> {
    if |chunks| == 0 then [] else Joined(chunks[..|chunks| - 1]) + chunks[|chunks| - 1]
  }

  /** However the text is cut, the events written and every field are those of the whole text at once. */
  lemma {:induction false} ChunksDoNotMatter(p: Printer, chunks: seq<seq<byte>>)
    requires |chunks| > 0
    ensures ProcessAll(p, chunks) == Process(p, Joined(chunks), false)
  {
    hide Process;
    var head, last := chunks[..|chunks| - 1], chunks[|chunks| - 1];
    if |head| == 0 {
      assert Joined(chunks) == last;
    } else {
      ChunksDoNotMatter(p, head);
      ProcessSplit(p, Joined(head), last, false);
    }
  }

  /** Finishing after any chunks is one scan of the whole text that holds nothing back. */
  lemma FinishedOutput(p: Printer, chunks: seq<seq<byte>>)
    requires p.pending == [] && |chunks| > 0
    ensures Finish(ProcessAll(p, chunks)) == ResetColor(Scan(p, Joined(chunks), true))
  {
    hide Scan, ProcessAll;
    ChunksDoNotMatter(p, chunks);
    ProcessSplit(p, Joined(chunks), [], true);
    assert Joined(chunks) + [] == Joined(chunks);
    assert [] + Joined(chunks) == Joined(chunks);
    assert p.(pending := []) == p;
  }

  // ---- what is seen --------------------------------------------------------------------------------------

  /** A byte on the screen. */
  datatype Cell = Cell(b: byte, grey: bool)

  /** Whether grey is on behind the events. */
  function IsOn(e: seq<Event>): bool {
    if |e| == 0 then false else if e[|e| - 1].Out? then IsOn(e[..|e| - 1]) else e[|e| - 1].Grey?
  }

  /** The bytes of the events, each grey when grey was on. */
  function Painted(e: seq<Event>): seq<Cell> {
    if |e| == 0 then [] else
    var before, x := e[..|e| - 1], e[|e| - 1];
    if x.Out? then Painted(before) + [Cell(x.b, IsOn(before))] else Painted(before)
  }

  /**
   A text as it is to be seen: without its tags, with a newline behind a closing tag that does not find itself at the
   start of a line, and grey inside thoughts.
   */
  function Seen(text: seq<byte>, thought: bool, lineStart: bool, color: bool): seq<Cell>
    decreases |text|
  {
    if text == [] then []
    else if [0x3c, 0x74, 0x68, 0x69, 0x6e, 0x6b, 0x3e] <= text then Seen(text[7..], true, lineStart, color)
    else if [0x3c, 0x2f, 0x74, 0x68, 0x69, 0x6e, 0x6b, 0x3e] <= text then
      (if lineStart then [] else [Cell(10, false)]) + Seen(text[8..], false, true, color)
    else
      [Cell(text[0], thought && color)] + Seen(text[1..], thought, text[0] == 10, color)
  }

  lemma Behind(e: seq<Event>, x: Event)
    ensures IsOn(e + [x]) == if x.Out? then IsOn(e) else x.Grey?
    ensures Painted(e + [x]) == if x.Out? then Painted(e) + [Cell(x.b, IsOn(e))] else Painted(e)
  {
    assert (e + [x])[..|e + [x]| - 1] == e;
  }

  /** Grey is on exactly when the printer says so, and only inside a thought. */
  ghost predicate Colored(p: Printer) {
    p.colorOpen == IsOn(p.output) && (p.colorOpen ==> p.inThink && p.useColor)
  }

  lemma WritePaints(p: Printer, c: byte)
    requires Colored(p)
    ensures Colored(WriteChar(p, c)) && WriteChar(p, c).inThink == p.inThink && WriteChar(p, c).useColor == p.useColor
    ensures WriteChar(p, c).lastNewline == (c == 10)
    ensures Painted(WriteChar(p, c).output) == Painted(p.output) + [Cell(c, p.inThink && p.useColor)]
  {
    hide IsOn, Painted;
    Behind(p.output, Grey);
    Behind(p.output, Out(c));
    Behind(p.output + [Grey], Out(c));
  }

  lemma LeavePaints(p: Printer)
    requires Colored(p)
    ensures Colored(LeaveThink(p)) && !LeaveThink(p).inThink && LeaveThink(p).lastNewline
    ensures LeaveThink(p).useColor == p.useColor
    ensures Painted(LeaveThink(p).output) == Painted(p.output) + if p.lastNewline then [] else [Cell(10, false)]
  {
    hide IsOn, Painted;
    Behind(p.output, Reset);
    Behind(p.output, Out(10));
    Behind(p.output + [Reset], Out(10));
  }

  lemma StartsWith(p: seq<byte>, tag: seq<byte>)
    ensures HasPrefix(p, tag) <==> tag <= p
  {
  }

  /** A whole text is painted as it is to be seen. */
  lemma {:induction false} ScanPaints(p: Printer, text: seq<byte>)
    requires Colored(p)
    ensures Colored(Scan(p, text, true))
    ensures Painted(Scan(p, text, true).output)
         == Painted(p.output) + Seen(text, p.inThink, p.lastNewline, p.useColor)
    decreases |text|
  {
    hide HasPrefix, WriteChar, LeaveThink, Painted, IsOn, Seen, Scan, Colored;
    StartsWith(text, OPEN);
    StartsWith(text, CLOSE);
    ScanStep(p, text, true);
    SeenStep(text, p.inThink, p.lastNewline, p.useColor);
    if |text| == 0 {
    } else if HasPrefix(text, OPEN) {
      PrefixLength(text, OPEN);
      ThinkColored(p);
      ScanPaints(p.(inThink := true), text[|OPEN|..]);
    } else if HasPrefix(text, CLOSE) {
      PrefixLength(text, CLOSE);
      LeavePaints(p);
      ScanPaints(LeaveThink(p), text[|CLOSE|..]);
    } else {
      WritePaints(p, text[0]);
      ScanPaints(WriteChar(p, text[0]), text[1..]);
    }
  }

  lemma ThinkColored(p: Printer)
    requires Colored(p)
    ensures Colored(p.(inThink := true))
  {
    hide IsOn;
  }

  lemma SeenStep(text: seq<byte>, thought: bool, lineStart: bool, color: bool)
    ensures Seen(text, thought, lineStart, color) ==
      if text == [] then []
      else if OPEN <= text then Seen(text[|OPEN|..], true, lineStart, color)
      else if CLOSE <= text then
        (if lineStart then [] else [Cell(10, false)]) + Seen(text[|CLOSE|..], false, true, color)
      else [Cell(text[0], thought && color)] + Seen(text[1..], thought, text[0] == 10, color)
  {
  }

  /** However the text was cut, once it is finished all of it is painted as it is to be seen, and grey is off. */
  lemma FinishedPaints(p: Printer, chunks: seq<seq<byte>>)
    requires p.pending == [] && |chunks| > 0 && Colored(p)
    ensures var q := Finish(ProcessAll(p, chunks));
      && Painted(q.output) == Painted(p.output) + Seen(Joined(chunks), p.inThink, p.lastNewline, p.useColor)
      && !IsOn(q.output)
  {
    hide Scan, ProcessAll, Finish, Painted, IsOn, Seen;
    FinishedOutput(p, chunks);
    ScanPaints(p, Joined(chunks));
    Behind(Scan(p, Joined(chunks), true).output, Reset);
  }

  /** Neither tag begins in the first n bytes. */
  ghost predicate TagFree(text: seq<byte>, n: nat) {
    forall i :: 0 <= i < n && i <= |text| ==> !(OPEN <= text[i..]) && !(CLOSE <= text[i..])
  }

  lemma TagFreeTail(text: seq<byte>, n: nat)
    requires |text| > 0 && n > 0 && TagFree(text, n)
    ensures TagFree(text[1..], n - 1) && !(OPEN <= text) && !(CLOSE <= text)
  {
    assert text[0..] == text;
    forall i | 0 <= i < n - 1 && i <= |text[1..]|
      ensures !(OPEN <= text[1..][i..]) && !(CLOSE <= text[1..][i..])
    {
      var k := i + 1;
      assert text[k..] == text[1..][i..];
    }
  }

  lemma SeenByte(text: seq<byte>, thought: bool, lineStart: bool, color: bool)
    requires |text| > 0 && !(OPEN <= text) && !(CLOSE <= text)
    ensures Seen(text, thought, lineStart, color)
         == [Cell(text[0], thought && color)] + Seen(text[1..], thought, text[0] == 10, color)
  {
  }

  /** What stands in front of the first tag is seen byte by byte. */
  lemma {:induction false} SeenSpan(a: seq<byte>, rest: seq<byte>, thought: bool, lineStart: bool, color: bool)
    requires TagFree(a + rest, |a|)
    ensures Seen(a + rest, thought, lineStart, color)
         == seq(|a|, i requires 0 <= i < |a| => Cell(a[i], thought && color))
            + Seen(rest, thought, if |a| == 0 then lineStart else a[|a| - 1] == 10, color)
    decreases |a|
  {
    hide Seen, TagFree;
    if |a| == 0 {
      assert a + rest == rest;
    } else {
      var text, b := a + rest, a[1..];
      assert text[1..] == b + rest && text[0] == a[0];
      TagFreeTail(text, |a|);
      SeenByte(text, thought, lineStart, color);
      SeenSpan(b, rest, thought, a[0] == 10, color);
    }
  }

  // ---- the printer object --------------------------------------------------------------------------------

  class TokenPrinter {
    var inThink: bool
    var colorOpen: bool
    const useColor: bool
    var lastOutputNewline: bool
    var pending: seq<byte>
    var output: seq<Event>

    function Abs(): Printer
      reads this
    {
      Printer(inThink, colorOpen, useColor, lastOutputNewline, pending, output)
    }

    constructor (inThink: bool, useColor: bool, lastOutputNewline: bool)
      ensures Abs() == Printer(inThink, false, useColor, lastOutputNewline, [], [])
      ensures Kept(Abs())
    {
      this.inThink := inThink;
      this.colorOpen := false;
      this.useColor := useColor;
      this.lastOutputNewline := lastOutputNewline;
      this.pending := [];
      this.output := [];
    }

    method SetGreyOn()
      modifies this
      ensures Abs() == SetGrey(old(Abs()))
    {
      if useColor && !colorOpen {
        output := output + [Grey];
        colorOpen := true;
      }
    }

    method ResetColorOff()
      modifies this
      ensures Abs() == ResetColor(old(Abs()))
    {
      if useColor && colorOpen {
        output := output + [Reset];
        colorOpen := false;
      }
    }

    method Write(c: byte)
      modifies this
      ensures Abs() == WriteChar(old(Abs()), c)
    {
      if inThink { SetGreyOn(); }
      output := output + [Out(c)];
      lastOutputNewline := c == NEWLINE;
    }

    /** The fields after a closing tag. */
    method LeaveThought()
      modifies this
      ensures Abs() == LeaveThink(old(Abs())) && pending == old(pending)
    {
      inThink := false;
      ResetColorOff();
      if !lastOutputNewline {
        output := output + [Out(NEWLINE)];
        lastOutputNewline := true;
      }
    }

    method ProcessText(text: seq<byte>, finish: bool)
      requires Kept(Abs())
      modifies this
      ensures Abs() == Process(old(Abs()), text, finish) && Kept(Abs())
    {
      hide HasPrefix, MayBecomeTag, WriteChar, Scan, Kept, LeaveThink;
      ProcessKeeps(Abs(), text, finish);
      var buf := pending + text;
      var total := |buf|;
      pending := [];
      var i := 0;
      assert buf[0..] == buf;
      while i < total
        invariant 0 <= i <= total
        invariant Scan(Abs(), buf[i..], finish) == Process(old(Abs()), text, finish)
        invariant pending == []
      {
        var cur := buf[i..];
        ScanStep(Abs(), cur, finish);
        if HasPrefix(cur, OPEN) {
          inThink := true;
          PrefixLength(cur, OPEN);
          i := i + |OPEN|;
          assert cur[|OPEN|..] == buf[i..];
        } else if HasPrefix(cur, CLOSE) {
          LeaveThought();
          PrefixLength(cur, CLOSE);
          i := i + |CLOSE|;
          assert cur[|CLOSE|..] == buf[i..];
        } else if !finish && MayBecomeTag(cur) {
          if |cur| < BUFFER { pending := cur; }
          return;
        } else {
          WriteCharPending(Abs(), cur[0]);
          Write(cur[0]);
          i := i + 1;
          assert cur[1..] == buf[i..];
        }
      }
      ScanStep(Abs(), buf[i..], finish);
    }

    method FinishText()
      requires Kept(Abs())
      modifies this
      ensures Abs() == Finish(old(Abs())) && pending == []
    {
      hide Process;
      ProcessKeeps(Abs(), [], true);
      ProcessText([], true);
      ResetColorOff();
    }
  }
}
