/** The kernel's debug log (kernel/debug/Log.cpp).

    Log formats one line into a buffer on the stack: the uptime, the processor and
    thread ids, the level string between two colour escapes, the formatted message and
    "\r\n". WriteLog reserves space for the line and for the queue item that describes it
    in a ring buffer (the core's own, or the early buffer before core-local state
    exists) by advancing the buffer's head, copies the text in, queues the item, and,
    while early outputs are registered, flushes up to twenty queued messages to them.
    WriteElos hands one message to every early output, in two pieces when it runs over
    the end of its ring buffer.

    The bytes of the ring buffer are not modelled: WriteLog's result is the placement it
    computes (where the item goes, where the text begins, which copies it makes) and
    WriteElos's result is the list of calls it makes, each naming a slot, an offset into
    the ring buffer and a length. Early outputs are callback identities; the formatted
    message text (NanoPrintf's output for the caller's format string) is a parameter. */
module DebugLog {
  import opened Common

  const MaxEarlyLogOuts: nat := 4
  const MaxEloItemsPrinted: nat := 20
  const LevelStrLength: nat := 10
  const LevelColourLength: nat := 5
  const PageSize: nat := 0x1000
  const EarlyBufferSize: nat := 4 * PageSize
  /** sizeof(QueueMpSc<LogMessage>::Item): a next pointer and the three 8-byte fields of
      LogMessage. containers/Queue.h is not part of this model. */
  const QueueItemSize: nat := 32
  /** 2^64: size_t arithmetic wraps modulo this. */
  const SizeLimit: nat := 0x1_0000_0000_0000_0000

  /** size_t subtraction, which wraps below zero. */
  function SizeSub(a: nat, b: nat): (r: nat)
    ensures r < SizeLimit
    ensures b <= a < SizeLimit ==> r == a - b
    ensures a < b && b - a <= SizeLimit ==> r == SizeLimit + a - b
  {
    (a - b) % SizeLimit
  }

  datatype LogLevel = Fatal | Error | Warning | Info | Verbose | Debug

  /** LevelStrs: the level's name, padded to LevelStrLength characters. */
  function LevelStr(level: LogLevel): (s: seq<char>)
    ensures |s| == LevelStrLength && s[0] == '[' && s[8..] == "] "
  {
    match level
    case Fatal => "[ Fatal ] "
    case Error => "[ Error ] "
    case Warning => "[Warning] "
    case Info => "[ Info  ] "
    case Verbose => "[Verbose] "
    case Debug => "[ Debug ] "
  }

  /** LevelColourStrs: the ANSI escape selecting the level's colour. */
  function LevelColour(level: LogLevel): (s: seq<char>)
    ensures |s| == LevelColourLength && s[..2] == "\U{1B}[" && s[4] == 'm'
  {
    match level
    case Fatal => "\U{1B}[91m"
    case Error => "\U{1B}[31m"
    case Warning => "\U{1B}[93m"
    case Info => "\U{1B}[97m"
    case Verbose => "\U{1B}[90m"
    case Debug => "\U{1B}[94m"
  }

  const LevelColourReset: seq<char> := "\U{1B}[39m"

  /** Different levels are announced by different strings. */
  lemma LevelStrInjective(a: LogLevel, b: LogLevel)
    requires LevelStr(a) == LevelStr(b)
    ensures a == b
  {
    assert LevelStr(a)[2] == LevelStr(b)[2] && LevelStr(a)[3] == LevelStr(b)[3];
  }

  function Digit(d: nat): (c: char)
    requires d < 10
    ensures '0' <= c <= '9'
  {
    "0123456789"[d]
  }

  function DigitValue(c: char): nat
  {
    if '0' <= c <= '9' then (c as int - '0' as int) else 0
  }

  /** `%lu`: the decimal digits of `n`, without leading zeros. */
  function Decimal(n: nat): (s: seq<char>)
    ensures |s| > 0 && forall j | 0 <= j < |s| :: '0' <= s[j] <= '9'
    decreases n
  {
    if n < 10 then [Digit(n)] else Decimal(n / 10) + [Digit(n % 10)]
  }

  /** The number a string of decimal digits denotes. */
  function DigitsValue(s: seq<char>): nat
  {
    if s == [] then 0 else DigitsValue(s[..|s| - 1]) * 10 + DigitValue(s[|s| - 1])
  }

  /** Reading the printed digits back gives the number printed. */
  lemma {:induction false} DecimalRoundTrip(n: nat)
    ensures DigitsValue(Decimal(n)) == n
    decreases n
  {
    var s := Decimal(n);
    if n < 10 {
      assert s[..0] == [];
    } else {
      DecimalRoundTrip(n / 10);
      assert s[..|s| - 1] == Decimal(n / 10);
      assert DigitValue(s[|s| - 1]) == n % 10;
    }
  }

  /** `%lu.%03lu` of the uptime in milliseconds. */
  function UptimeText(uptime: nat): seq<char>
  {
    var ms := uptime % 1000;
    Decimal(uptime / 1000) + "." + [Digit(ms / 100), Digit(ms / 10 % 10), Digit(ms % 10)]
  }

  /** `p%lut%lu` of the processor and thread ids. */
  function CoreText(processorId: nat, threadId: nat): seq<char>
  {
    "p" + Decimal(processorId) + "t" + Decimal(threadId)
  }

  /** The line Log builds: each printf piece's terminating NUL is overwritten by a space,
      except the message's, which stays in front of "\r\n". */
  function LogLine(uptime: nat, processorId: nat, threadId: nat, level: LogLevel, text: seq<char>): seq<char>
  {
    UptimeText(uptime) + " " + CoreText(processorId, threadId) + " "
      + LevelColour(level) + LevelStr(level) + LevelColourReset + text + "\0" + "\r\n"
  }

  /** The stack buffer's length, bufferLen, with uptimeLen, headerLen and strLen each
      counting its piece's terminator. */
  function LineLength(uptime: nat, processorId: nat, threadId: nat, text: seq<char>): nat
  {
    (|UptimeText(uptime)| + 1) + LevelStrLength + (|CoreText(processorId, threadId)| + 1)
      + LevelColourLength * 2 + (|text| + 1) + 2
  }

  /** sl::memcopy of `src` into `buffer` at `at`. */
  method CopyInto(buffer: array<char>, at: nat, src: seq<char>)
    requires at + |src| <= buffer.Length
    modifies buffer
    ensures forall k | 0 <= k < buffer.Length ::
      buffer[k] == (if at <= k < at + |src| then src[k - at] else old(buffer[k]))
  {
    var i := 0;
    while i < |src|
      invariant 0 <= i <= |src|
      invariant forall k | 0 <= k < buffer.Length ::
        buffer[k] == (if at <= k < at + i then src[k - at] else old(buffer[k]))
    {
      buffer[at + i] := src[i];
      i := i + 1;
    }
  }

  /** Copies `piece` after the `done` characters already in place: they are followed
      by the piece. */
  method AppendPiece(buffer: array<char>, at: nat, piece: seq<char>, ghost done: seq<char>)
    requires at + |piece| <= buffer.Length && buffer[..at] == done
    modifies buffer
    ensures buffer[..at + |piece|] == done + piece
  {
    CopyInto(buffer, at, piece);
    assert buffer[..at + |piece|] == done + piece by {
      forall k | 0 <= k < at + |piece|
        ensures buffer[k] == (done + piece)[k]
      {
        if k < at {
          assert old(buffer[..at])[k] == done[k];
        }
      }
    }
  }

  /** A printf of `text` with room for its terminator, whose terminator is then
      overwritten by a space. */
  method PrintThenSpace(buffer: array<char>, at: nat, text: seq<char>, ghost done: seq<char>)
    requires at + |text| + 1 <= buffer.Length && buffer[..at] == done
    modifies buffer
    ensures buffer[..at + |text| + 1] == done + text + " "
  {
    CopyInto(buffer, at, text + "\0");
    buffer[at + |text|] := ' ';
    assert buffer[..at + |text| + 1] == done + text + " " by {
      forall k | 0 <= k < at + |text| + 1
        ensures buffer[k] == (done + text + " ")[k]
      {
        if k < at {
          assert old(buffer[..at])[k] == done[k];
        }
      }
    }
  }

  /** The line's prefix up to the message: uptime, ids, and the coloured level. */
  function LinePrefix(uptimeText: seq<char>, coreText: seq<char>, level: LogLevel): seq<char>
  {
    uptimeText + " " + coreText + " " + LevelColour(level) + LevelStr(level) + LevelColourReset
  }

  /** The first part of Log's writes: the uptime and the ids, each printed with its
      terminator which is then overwritten by a space, then the colour escape, the level
      string and the colour reset. */
  method WritePrefix(buffer: array<char>, uptimeText: seq<char>, coreText: seq<char>,
                     colour: seq<char>, name: seq<char>, reset: seq<char>)
    returns (bufferStart: nat)
    requires |uptimeText| + |coreText| + 2 + |colour| + |name| + |reset| <= buffer.Length
    modifies buffer
    ensures bufferStart == |uptimeText| + |coreText| + 2 + |colour| + |name| + |reset|
    ensures buffer[..bufferStart] == uptimeText + " " + coreText + " " + colour + name + reset
  {
    bufferStart := WriteIds(buffer, uptimeText, coreText);
    bufferStart := WriteLevel(buffer, bufferStart, uptimeText + " " + coreText + " ", colour, name, reset);
  }

  /** The uptime and the ids, each followed by a space. */
  method WriteIds(buffer: array<char>, uptimeText: seq<char>, coreText: seq<char>) returns (next: nat)
    requires |uptimeText| + |coreText| + 2 <= buffer.Length
    modifies buffer
    ensures next == |uptimeText| + |coreText| + 2
    ensures buffer[..next] == uptimeText + " " + coreText + " "
  {
    PrintThenSpace(buffer, 0, uptimeText, []);
    PrintThenSpace(buffer, |uptimeText| + 1, coreText, [] + uptimeText + " ");
    assert [] + uptimeText + " " == uptimeText + " ";
    next := |uptimeText| + |coreText| + 2;
  }

  /** The colour escape, the level string and the colour reset after `done`. */
  method WriteLevel(buffer: array<char>, at: nat, ghost done: seq<char>,
                    colour: seq<char>, name: seq<char>, reset: seq<char>) returns (next: nat)
    requires at + |colour| + |name| + |reset| <= buffer.Length && buffer[..at] == done
    modifies buffer
    ensures next == at + |colour| + |name| + |reset|
    ensures buffer[..next] == done + colour + name + reset
  {
    AppendPiece(buffer, at, colour, done);
    AppendPiece(buffer, at + |colour|, name, done + colour);
    AppendPiece(buffer, at + |colour| + |name|, reset, done + colour + name);
    next := at + |colour| + |name| + |reset|;
  }

  /** The stack-buffer part of Log: allocates bufferLen characters and writes the pieces
      one after the other, advancing bufferStart by each piece's length until it reaches
      bufferLen. */
  method FormatLine(uptime: nat, processorId: nat, threadId: nat, level: LogLevel, text: seq<char>)
    returns (buffer: array<char>, bufferStart: nat)
    ensures fresh(buffer)
    ensures buffer.Length == LineLength(uptime, processorId, threadId, text)
    ensures bufferStart == buffer.Length
    ensures buffer[..] == LogLine(uptime, processorId, threadId, level, text)
  {
    var uptimeText := UptimeText(uptime);
    var coreText := CoreText(processorId, threadId);
    var uptimeLen := |uptimeText| + 1;
    var headerLen := |coreText| + 1;
    var strLen := |text| + 1;
    var bufferLen := uptimeLen + LevelStrLength + headerLen + LevelColourLength * 2 + strLen + 2;
    ghost var prefix := LinePrefix(uptimeText, coreText, level);
    assert |prefix| == uptimeLen + headerLen + LevelColourLength * 2 + LevelStrLength;
    buffer := new char[bufferLen];
    bufferStart := WritePrefix(buffer, uptimeText, coreText, LevelColour(level), LevelStr(level), LevelColourReset);
    AppendPiece(buffer, bufferStart, text + "\0", prefix);
    assert prefix + (text + "\0") == prefix + text + "\0";
    bufferStart := bufferStart + strLen;
    AppendPiece(buffer, bufferStart, "\r\n", prefix + text + "\0");
    bufferStart := bufferStart + 2;
    assert buffer[..] == buffer[..bufferStart];
  }

  /** A ring buffer of log text (LogBuffer). Its bytes are not modelled; `head` counts
      every byte ever reserved in it. */
  class LogBuffer {
    const length: nat
    var head: nat

    constructor (length: nat)
      requires 0 < length < SizeLimit
      ensures this.length == length && head == 0 && Valid()
    {
      this.length := length;
      head := 0;
    }

    predicate Valid()
    {
      0 < length < SizeLimit
    }
  }

  /** A queued message (LogMessage): its buffer, where its text begins, and its length. */
  datatype LogMessage = LogMessage(buff: LogBuffer, begin: nat, length: nat)

  /** One memcopy of WriteLog: `length` bytes from offset `from` of the message to offset
      `to` of the ring buffer. */
  datatype Copy = Copy(from: nat, to: nat, length: nat)

  /** Where WriteLog puts a message: the offset it reserved from, the offset the queue
      item is placed from (the item itself sits at that address rounded up to the item
      size, which is not modelled), the offset the text begins at, and the copies it makes. */
  datatype Placement = Placement(beginWrite: nat, itemAddr: nat, messageBegin: nat, copies: seq<Copy>)

  /** WriteLog's placement arithmetic for a message of `messageLen` bytes reserved at
      `head`. The reservation is the text plus two queue items' worth of space. When it
      fits before the end of the buffer the item comes first and the text after it, in
      one copy. When it runs over, the item goes before the text if the overrun has room
      for it and after the text's first part otherwise, and the text is copied in two
      parts, the second to the start of the buffer. */
  function PlaceMessage(head: nat, bufferLength: nat, messageLen: nat): (p: Placement)
    requires bufferLength > 0
    ensures p.beginWrite == head % bufferLength
    ensures p.beginWrite + messageLen + 2 * QueueItemSize <= bufferLength ==>
      && p.itemAddr == p.beginWrite
      && p.messageBegin == p.beginWrite + 2 * QueueItemSize
      && p.copies == [Copy(0, p.messageBegin, messageLen)]
      && p.messageBegin + messageLen <= bufferLength
    ensures p.beginWrite + messageLen + 2 * QueueItemSize > bufferLength ==>
      |p.copies| == 2 && p.copies[1].to == 0 && p.copies[1].from == p.copies[0].length
  {
    var allocLength := messageLen + 2 * QueueItemSize;
    var beginWrite := head % bufferLength;
    if beginWrite + allocLength > bufferLength then
      var startLength := beginWrite + allocLength - bufferLength;
      var endLength := allocLength - startLength;
      if startLength >= 2 * QueueItemSize then
        var first := startLength - 2 * QueueItemSize;
        Placement(beginWrite, beginWrite, beginWrite + 2 * QueueItemSize,
                  [Copy(0, beginWrite + 2 * QueueItemSize, first), Copy(first, 0, endLength)])
      else
        var second := SizeSub(endLength, 2 * QueueItemSize);
        Placement(beginWrite, second, beginWrite, [Copy(0, beginWrite, startLength), Copy(startLength, 0, second)])
    else
      Placement(beginWrite, beginWrite, beginWrite + 2 * QueueItemSize, [Copy(0, beginWrite + 2 * QueueItemSize, messageLen)])
  }

  /** When the reservation runs over the end of the buffer, the two copies together move
      the whole message, counted in size_t. They move exactly its length unless the item
      goes after the text and the text is shorter than the overrun, where the second
      copy's length is a size_t that has wrapped below zero. */
  lemma PlaceMessageWrapMovesMessage(head: nat, bufferLength: nat, messageLen: nat)
    requires 0 < bufferLength < SizeLimit && messageLen < SizeLimit
    requires head % bufferLength + messageLen + 2 * QueueItemSize > bufferLength
    ensures var p := PlaceMessage(head, bufferLength, messageLen);
      var overrun := head % bufferLength + messageLen + 2 * QueueItemSize - bufferLength;
      && (p.copies[0].length + p.copies[1].length) % SizeLimit == messageLen
      && (overrun >= 2 * QueueItemSize || overrun <= messageLen ==>
            p.copies[0].length + p.copies[1].length == messageLen)
      && (overrun >= 2 * QueueItemSize ==>
            p.itemAddr == p.beginWrite && p.messageBegin == p.beginWrite + 2 * QueueItemSize)
      && (overrun < 2 * QueueItemSize ==> p.messageBegin == p.beginWrite)
  {
    var p := PlaceMessage(head, bufferLength, messageLen);
    var beginWrite := head % bufferLength;
    var overrun := beginWrite + messageLen + 2 * QueueItemSize - bufferLength;
    var endLength := bufferLength - beginWrite;
    var sum := p.copies[0].length + p.copies[1].length;
    if overrun >= 2 * QueueItemSize {
      assert sum == messageLen;
    } else if endLength >= 2 * QueueItemSize {
      assert p.copies[1].length == endLength - 2 * QueueItemSize;
      assert sum == messageLen;
    } else {
      assert p.copies[1].length == SizeLimit + endLength - 2 * QueueItemSize;
      assert sum == SizeLimit + messageLen;
      DivModUnique(sum, SizeLimit, 1, messageLen);
    }
    DivModUnique(messageLen, SizeLimit, 0, messageLen);
  }

  /** The part of a message past the end of its ring buffer; WriteElos sends it from the
      buffer's start. */
  function Runover(msg: LogMessage): nat
  {
    if msg.begin + msg.length >= msg.buff.length then msg.begin + msg.length - msg.buff.length else 0
  }

  /** The part WriteElos sends from the message's own offset: `length -= runover`, a
      size_t subtraction. */
  function HeadLength(msg: LogMessage): nat
  {
    if msg.begin + msg.length >= msg.buff.length then SizeSub(msg.length, Runover(msg)) else msg.length
  }

  /** A message that starts inside its buffer is split into the piece up to the end of
      the buffer and the piece from its start, together the whole message. */
  lemma MessageSplit(msg: LogMessage)
    requires msg.begin <= msg.buff.length && msg.length < SizeLimit
    ensures HeadLength(msg) + Runover(msg) == msg.length
    ensures Runover(msg) > 0 ==> msg.begin + HeadLength(msg) == msg.buff.length
    ensures msg.begin + msg.length < msg.buff.length ==> Runover(msg) == 0 && HeadLength(msg) == msg.length
  {
  }

  /** One call to an early output: the slot, the callback it holds (None for a null
      pointer), and the offset and length of the text handed to it. */
  datatype EloWrite = EloWrite(slot: nat, callback: Option<nat>, begin: nat, length: nat)

  /** The calls for slot `i`, as written: the first piece goes only to an occupied slot,
      but the runover goes to the slot whether it is occupied or not. */
  function SlotWritesAsWritten(slots: seq<Option<nat>>, msg: LogMessage, i: nat): seq<EloWrite>
    requires i < |slots|
  {
    (if slots[i].Some? then [EloWrite(i, slots[i], msg.begin, HeadLength(msg))] else [])
      + (if Runover(msg) > 0 then [EloWrite(i, slots[i], 0, Runover(msg))] else [])
  }

  function WritesFromAsWritten(slots: seq<Option<nat>>, msg: LogMessage, i: nat): seq<EloWrite>
    decreases |slots| - i
  {
    if i >= |slots| then [] else SlotWritesAsWritten(slots, msg, i) + WritesFromAsWritten(slots, msg, i + 1)
  }

  /** WriteElos as written: nothing for an empty message, otherwise every slot's calls. */
  function ElosWritesAsWritten(slots: seq<Option<nat>>, msg: LogMessage): seq<EloWrite>
  {
    if msg.length == 0 then [] else WritesFromAsWritten(slots, msg, 0)
  }

  /** As written, a message that runs over the end of its buffer is handed to an empty
      slot: the call goes through a null function pointer. */
  lemma ElosAsWrittenCallsEmptySlot(buff: LogBuffer)
    requires buff.length > 0
    ensures EloWrite(1, None, 0, 1) in
      ElosWritesAsWritten([Some(7), None, None, None], LogMessage(buff, buff.length - 1, 2))
  {
    var slots: seq<Option<nat>> := [Some(7), None, None, None];
    var msg := LogMessage(buff, buff.length - 1, 2);
    assert Runover(msg) == 1;
    assert WritesFromAsWritten(slots, msg, 1)[0] == EloWrite(1, None, 0, 1);
    assert WritesFromAsWritten(slots, msg, 0) ==
      SlotWritesAsWritten(slots, msg, 0) + WritesFromAsWritten(slots, msg, 1);
  }

  /** The calls for slot `i` when the runover is guarded like the first piece: an empty
      slot gets nothing. */
  function SlotWrites(slots: seq<Option<nat>>, msg: LogMessage, i: nat): seq<EloWrite>
    requires i < |slots|
  {
    if slots[i].None? then []
    else
      [EloWrite(i, slots[i], msg.begin, HeadLength(msg))]
        + (if Runover(msg) > 0 then [EloWrite(i, slots[i], 0, Runover(msg))] else [])
  }

  function WritesFrom(slots: seq<Option<nat>>, msg: LogMessage, i: nat): seq<EloWrite>
    decreases |slots| - i
  {
    if i >= |slots| then [] else SlotWrites(slots, msg, i) + WritesFrom(slots, msg, i + 1)
  }

  /** WriteElos with the runover call guarded: nothing for an empty message, otherwise
      every occupied slot's calls, slot by slot. */
  function ElosWrites(slots: seq<Option<nat>>, msg: LogMessage): seq<EloWrite>
  {
    if msg.length == 0 then [] else WritesFrom(slots, msg, 0)
  }

  /** Every call goes to an occupied slot, through the callback it holds, and each slot's
      calls come in the order the text lies. */
  lemma {:induction false} WritesFromOccupied(slots: seq<Option<nat>>, msg: LogMessage, i: nat)
    ensures forall w | w in WritesFrom(slots, msg, i) ::
      i <= w.slot < |slots| && slots[w.slot].Some? && w.callback == slots[w.slot]
    decreases |slots| - i
  {
    if i < |slots| {
      WritesFromOccupied(slots, msg, i + 1);
    }
  }

  /** A slot gets the first piece of the message and, when there is one, the runover,
      and the two add up to the message. */
  lemma SlotWritesCover(slots: seq<Option<nat>>, msg: LogMessage, i: nat)
    requires i < |slots| && slots[i].Some?
    requires msg.begin <= msg.buff.length && msg.length < SizeLimit
    ensures var ws := SlotWrites(slots, msg, i);
      && ws[0].begin == msg.begin
      && (|ws| == 1 ==> ws[0].length == msg.length)
      && (|ws| == 2 ==> ws[1].begin == 0 && ws[0].length + ws[1].length == msg.length)
  {
    MessageSplit(msg);
  }

  /** The guarded WriteElos is the written one wherever every slot is occupied. */
  lemma {:induction false} WritesAgreeWhenFull(slots: seq<Option<nat>>, msg: LogMessage, i: nat)
    requires forall j | 0 <= j < |slots| :: slots[j].Some?
    ensures WritesFrom(slots, msg, i) == WritesFromAsWritten(slots, msg, i)
    decreases |slots| - i
  {
    if i < |slots| {
      WritesAgreeWhenFull(slots, msg, i + 1);
    }
  }

  /** One slot's calls as written, then the calls of the slots after it. */
  lemma WritesFromAsWrittenStep(slots: seq<Option<nat>>, msg: LogMessage, i: nat, done: seq<EloWrite>)
    requires i < |slots|
    ensures done + WritesFromAsWritten(slots, msg, i) ==
      (done + SlotWritesAsWritten(slots, msg, i)) + WritesFromAsWritten(slots, msg, i + 1)
  {
  }

  /** The calls made while flushing queued messages, in queue order. */
  function FlushWrites(slots: seq<Option<nat>>, msgs: seq<LogMessage>): seq<EloWrite>
  {
    if msgs == [] then [] else ElosWritesAsWritten(slots, msgs[0]) + FlushWrites(slots, msgs[1..])
  }

  lemma {:induction false} FlushWritesAppend(slots: seq<Option<nat>>, msgs: seq<LogMessage>, m: LogMessage)
    ensures FlushWrites(slots, msgs + [m]) == FlushWrites(slots, msgs) + ElosWritesAsWritten(slots, m)
  {
    if msgs == [] {
      assert [m][1..] == [];
    } else {
      assert (msgs + [m])[1..] == msgs[1..] + [m];
      FlushWritesAppend(slots, msgs[1..], m);
    }
  }

  /** The index of the first empty slot, if any. */
  function FirstEmpty(slots: seq<Option<nat>>): (r: Option<nat>)
    ensures r.Some? ==>
      r.value < |slots| && slots[r.value].None? && forall j | 0 <= j < r.value :: slots[j].Some?
    ensures r.None? ==> forall j | 0 <= j < |slots| :: slots[j].Some?
  {
    if slots == [] then None
    else if slots[0].None? then Some(0)
    else match FirstEmpty(slots[1..])
      case None => None
      case Some(j) => Some(j + 1)
  }

  /** The number of occupied slots. */
  function Occupied(slots: seq<Option<nat>>): nat
  {
    if slots == [] then 0 else (if slots[0].Some? then 1 else 0) + Occupied(slots[1..])
  }

  /** Filling an empty slot occupies one more. */
  lemma {:induction false} OccupiedFill(slots: seq<Option<nat>>, i: nat, callback: nat)
    requires i < |slots| && slots[i].None?
    ensures Occupied(slots[i := Some(callback)]) == Occupied(slots) + 1
  {
    if i > 0 {
      assert slots[i := Some(callback)][1..] == slots[1..][i - 1 := Some(callback)];
      OccupiedFill(slots[1..], i - 1, callback);
    }
  }

  /** There is no empty slot exactly when every slot is occupied. */
  lemma {:induction false} OccupiedFull(slots: seq<Option<nat>>)
    ensures Occupied(slots) <= |slots|
    ensures FirstEmpty(slots).None? <==> Occupied(slots) == |slots|
  {
    if slots != [] {
      OccupiedFull(slots[1..]);
    }
  }

  function EmptySlots(): seq<Option<nat>>
  {
    [None, None, None, None]
  }

  /** The slots AddEarlyLogOutput starts from: cleared when no output was ever added. */
  function SlotsBeforeAdd(eloCount: nat, slots: seq<Option<nat>>): seq<Option<nat>>
  {
    if eloCount == 0 then EmptySlots() else slots
  }

  /** The logger's global state: the message queue, the early-output slots and their
      count, and the early ring buffer. */
  class Logger {
    var queue: seq<LogMessage>
    const earlyOuts: array<Option<nat>>
    var eloCount: nat
    const earlyBuffer: LogBuffer

    /** The state at boot: static storage starts zeroed, so every slot is empty. */
    constructor ()
      ensures Valid() && fresh(earlyOuts) && fresh(earlyBuffer)
      ensures queue == [] && eloCount == 0 && earlyOuts[..] == EmptySlots()
      ensures earlyBuffer.length == EarlyBufferSize && earlyBuffer.head == 0
    {
      queue := [];
      earlyOuts := new Option<nat>[MaxEarlyLogOuts](_ => None);
      eloCount := 0;
      earlyBuffer := new LogBuffer(EarlyBufferSize);
      new;
      assert earlyOuts[..] == EmptySlots();
    }

    /** Once an output was added, eloCount counts the occupied slots. */
    ghost predicate Valid()
      reads this, earlyOuts
    {
      earlyOuts.Length == MaxEarlyLogOuts && earlyBuffer.Valid() &&
      (eloCount == 0 || eloCount == Occupied(earlyOuts[..]))
    }

    /** How many queued messages a WriteLog call flushes: none while there is no early
        output or the lock is held elsewhere, otherwise up to MaxEloItemsPrinted. */
    function FlushCount(queued: nat, lockAcquired: bool): (n: nat)
      reads this
      ensures n <= queued && n <= MaxEloItemsPrinted
      ensures n == 0 <==> queued == 0 || eloCount == 0 || !lockAcquired
    {
      if eloCount > 0 && lockAcquired then Min(MaxEloItemsPrinted, queued) else 0
    }

    /** WriteElos: hands the message to every occupied early output; the runover is
        handed to every slot, occupied or not (ElosAsWrittenCallsEmptySlot). */
    method WriteElos(msg: LogMessage) returns (writes: seq<EloWrite>)
      requires earlyOuts.Length == MaxEarlyLogOuts
      ensures writes == ElosWritesAsWritten(earlyOuts[..], msg)
    {
      writes := [];
      if msg.length == 0 {
        return;
      }
      var runover := 0;
      var length := msg.length;
      if msg.begin + msg.length >= msg.buff.length {
        runover := msg.begin + msg.length - msg.buff.length;
        length := SizeSub(length, runover);
      }
      assert runover == Runover(msg) && length == HeadLength(msg);
      ghost var slots := earlyOuts[..];
      var i := 0;
      while i < MaxEarlyLogOuts
        invariant 0 <= i <= MaxEarlyLogOuts
        invariant ElosWritesAsWritten(slots, msg) == writes + WritesFromAsWritten(slots, msg, i)
      {
        var w: seq<EloWrite> := [];
        if earlyOuts[i] != None {
          w := [EloWrite(i, earlyOuts[i], msg.begin, length)];
        }
        if runover > 0 {
          w := w + [EloWrite(i, earlyOuts[i], 0, runover)];
        }
        assert w == SlotWritesAsWritten(slots, msg, i);
        WritesFromAsWrittenStep(slots, msg, i, writes);
        writes := writes + w;
        i := i + 1;
      }
    }

    /** WriteLog: reserves the message and its queue item at the buffer's head, places
        them, queues the item, and flushes the queue to the early outputs while there are
        any and the lock is free. */
    method WriteLog(messageLen: nat, buffer: LogBuffer, lockAcquired: bool)
      returns (p: Placement, written: seq<EloWrite>)
      requires Valid() && buffer.Valid()
      modifies this`queue, buffer`head
      ensures p == PlaceMessage(old(buffer.head), buffer.length, messageLen)
      ensures buffer.head == old(buffer.head) + messageLen + 2 * QueueItemSize
      ensures var enqueued := old(queue) + [LogMessage(buffer, p.messageBegin, messageLen)];
        var n := FlushCount(|enqueued|, lockAcquired);
        queue == enqueued[n..] && written == FlushWrites(earlyOuts[..], enqueued[..n])
    {
      var allocLength := messageLen + 2 * QueueItemSize;
      var oldHead := buffer.head;
      buffer.head := buffer.head + allocLength;
      p := PlaceMessage(oldHead, buffer.length, messageLen);
      queue := queue + [LogMessage(buffer, p.messageBegin, messageLen)];
      written := [];
      if !(eloCount > 0 && lockAcquired) {
        return;
      }
      ghost var enqueued := queue;
      var printed := 0;
      while printed < MaxEloItemsPrinted
        modifies this`queue
        invariant printed <= MaxEloItemsPrinted && printed <= |enqueued|
        invariant queue == enqueued[printed..]
        invariant written == FlushWrites(earlyOuts[..], enqueued[..printed])
      {
        if queue == [] {
          break;
        }
        var item := queue[0];
        queue := queue[1..];
        var w := WriteElos(item);
        assert enqueued[..printed + 1] == enqueued[..printed] + [item];
        FlushWritesAppend(earlyOuts[..], enqueued[..printed], item);
        written := written + w;
        printed := printed + 1;
      }
      assert printed == FlushCount(|enqueued|, lockAcquired);
    }

    /** Log: formats the line, writes it to the core's ring buffer or, before core-local
        state exists, to the early buffer, and reports whether the level makes the kernel
        panic. */
    method Log(uptime: nat, processorId: nat, threadId: nat, level: LogLevel, text: seq<char>,
               coreBuffer: LogBuffer?, lockAcquired: bool)
      returns (line: array<char>, placement: Placement, written: seq<EloWrite>, panics: bool)
      requires Valid() && (coreBuffer != null ==> coreBuffer.Valid())
      modifies this`queue, earlyBuffer`head, if coreBuffer != null then {coreBuffer} else {}
      ensures fresh(line) && line[..] == LogLine(uptime, processorId, threadId, level, text)
      ensures line.Length == LineLength(uptime, processorId, threadId, text)
      ensures var target := if coreBuffer != null then coreBuffer else earlyBuffer;
        && placement == PlaceMessage(old(target.head), target.length, line.Length)
        && target.head == old(target.head) + line.Length + 2 * QueueItemSize
        && var enqueued := old(queue) + [LogMessage(target, placement.messageBegin, line.Length)];
           var n := FlushCount(|enqueued|, lockAcquired);
           queue == enqueued[n..] && written == FlushWrites(earlyOuts[..], enqueued[..n])
      ensures panics <==> level == Fatal
    {
      var bufferLen;
      line, bufferLen := FormatLine(uptime, processorId, threadId, level, text);
      if coreBuffer != null {
        placement, written := WriteLog(bufferLen, coreBuffer, lockAcquired);
      } else {
        placement, written := WriteLog(bufferLen, earlyBuffer, lockAcquired);
      }
      panics := level == Fatal;
    }

    /** AddEarlyLogOutput: on the first call clears the slots, then puts the callback in
        the first empty slot and counts it; with every slot taken it changes nothing. */
    method AddEarlyLogOutput(callback: nat)
      requires Valid()
      modifies this`eloCount, earlyOuts
      ensures Valid()
      ensures var before := SlotsBeforeAdd(old(eloCount), old(earlyOuts[..]));
        match FirstEmpty(before)
        case None => earlyOuts[..] == before && eloCount == old(eloCount)
        case Some(i) => earlyOuts[..] == before[i := Some(callback)] && eloCount == old(eloCount) + 1
    {
      if eloCount == 0 {
        var i := 0;
        while i < MaxEarlyLogOuts
          modifies earlyOuts
          invariant 0 <= i <= MaxEarlyLogOuts
          invariant forall j | 0 <= j < i :: earlyOuts[j] == None
        {
          earlyOuts[i] := None;
          i := i + 1;
        }
        assert earlyOuts[..] == EmptySlots();
        assert Occupied(EmptySlots()) == 0 by {
          var e := EmptySlots();
          assert e[1..][1..][1..][1..] == [];
        }
      }
      ghost var before := earlyOuts[..];
      OccupiedFull(before);
      var i := 0;
      while i < MaxEarlyLogOuts
        invariant 0 <= i <= MaxEarlyLogOuts && earlyOuts[..] == before && eloCount == old(eloCount)
        invariant forall j | 0 <= j < i :: before[j].Some?
      {
        if earlyOuts[i] != None {
          i := i + 1;
          continue;
        }
        OccupiedFill(before, i, callback);
        eloCount := eloCount + 1;
        earlyOuts[i] := Some(callback);
        assert FirstEmpty(before) == Some(i);
        return;
      }
    }
  }
}
