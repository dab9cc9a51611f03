/** The kernel's boot-time log (kernel/Log.cpp).

    A fixed table records, per log destination, whether it is enabled. Log picks a
    header by severity and writes the header, the message, '\n' and '\r' to the debug
    console when that destination is enabled; the framebuffer destination prints
    nothing.

    Log.h, which declares the enumerations, is not part of this model: the destinations
    are numbered in the order the source handles them (DebugCon 0, FramebufferOverwrite
    1, EnumCount 2), and severities the switch does not name are one `OtherSeverity`.
    The debug-console port is modelled by the characters written to it. */
module KernelLog {

  const DebugCon: nat := 0
  const FramebufferOverwrite: nat := 1
  const DestinationCount: nat := 2

  datatype LogSeverity = Info | Warning | Error | Fatal | Verbose | OtherSeverity

  /** The header Log puts before a message of this severity; "\0" prints as nothing. */
  function Header(level: LogSeverity): (h: seq<char>)
    ensures h == [] <==> level == OtherSeverity
    ensures h != [] ==> |h| >= 2 && h[0] == '[' && h[|h| - 2..] == "] "
    ensures '\0' !in h
  {
    match level
    case Info => "[Info] "
    case Warning => "[Warn] "
    case Error => "[Error] "
    case Fatal => "[Fatal] "
    case Verbose => "[Verbose] "
    case OtherSeverity => ""
  }

  /** The severities the switch names are told apart by their headers. */
  lemma HeadersDistinct(a: LogSeverity, b: LogSeverity)
    requires Header(a) == Header(b) && a != OtherSeverity
    ensures a == b
  {
    assert Header(a)[1] == Header(b)[1];
    if a == Warning || a == Verbose {
      assert Header(a)[2] == Header(b)[2];
    }
  }

  /** The characters of a NUL-terminated string before its terminator. */
  function CString(s: seq<char>): (r: seq<char>)
    ensures |r| <= |s| && r == s[..|r|] && '\0' !in r
    ensures |r| < |s| ==> s[|r|] == '\0'
  {
    if s == [] || s[0] == '\0' then [] else [s[0]] + CString(s[1..])
  }

  /** What one Log call writes to the debug console. */
  function ConsoleOutput(level: LogSeverity, message: seq<char>): seq<char>
  {
    Header(level) + CString(message) + "\n\r"
  }

  /** A message without a terminator is printed whole. */
  lemma {:induction false} CStringOfPlain(s: seq<char>)
    requires '\0' !in s
    ensures CString(s) == s
  {
    if s != [] {
      CStringOfPlain(s[1..]);
    }
  }

  class Logging {
    /** logDestsStatus. */
    const destsStatus: array<bool>

    /** The state at boot: the array is static storage, which starts zeroed, so every
        destination is off. */
    constructor ()
      ensures fresh(destsStatus) && destsStatus.Length == DestinationCount
      ensures destsStatus[..] == seq(DestinationCount, _ => false)
    {
      destsStatus := new bool[DestinationCount](_ => false);
    }

    predicate Valid()
    {
      destsStatus.Length == DestinationCount
    }

    /** The destinations that are on. */
    ghost function Enabled(): set<nat>
      reads destsStatus
    {
      set d | 0 <= d < destsStatus.Length && destsStatus[d]
    }

    /** LoggingInitEarly: turns every destination off. */
    method LoggingInitEarly()
      requires Valid()
      modifies destsStatus
      ensures Enabled() == {}
    {
      var i := 0;
      while i < DestinationCount
        invariant 0 <= i <= DestinationCount
        invariant forall d | 0 <= d < i :: !destsStatus[d]
      {
        destsStatus[i] := false;
        i := i + 1;
      }
    }

    /** IsLogDestinationEnabled: whether `dest` is on; a value past the table is off. */
    method IsLogDestinationEnabled(dest: nat) returns (enabled: bool)
      requires Valid()
      ensures enabled <==> dest in Enabled()
      ensures dest >= DestinationCount ==> !enabled
    {
      if dest < DestinationCount {
        return destsStatus[dest];
      }
      return false;
    }

    /** EnableLogDestinaton: turns `dest` on or off and leaves the others alone; a value
        past the table changes nothing. */
    method EnableLogDestinaton(dest: nat, enabled: bool)
      requires Valid()
      modifies destsStatus
      ensures dest >= DestinationCount ==> Enabled() == old(Enabled())
      ensures dest < DestinationCount ==>
        Enabled() == if enabled then old(Enabled()) + {dest} else old(Enabled()) - {dest}
    {
      if dest < DestinationCount {
        destsStatus[dest] := enabled;
      }
    }

    /** Log: for every enabled destination in order, the debug console gets the header,
        the message up to its terminator, '\n' and '\r'; the framebuffer gets nothing. */
    method Log(message: seq<char>, level: LogSeverity) returns (console: seq<char>)
      requires Valid()
      ensures console == if DebugCon in Enabled() then ConsoleOutput(level, message) else []
    {
      var header := Header(level);
      console := [];
      var i := 0;
      while i < DestinationCount
        invariant 0 <= i <= DestinationCount
        invariant console == if i > DebugCon && destsStatus[DebugCon] then ConsoleOutput(level, message) else []
      {
        if !destsStatus[i] {
          i := i + 1;
          continue;
        }
        if i == DebugCon {
          var index := 0;
          while index < |header| && header[index] != '\0'
            invariant 0 <= index <= |header| && console == header[..index]
          {
            console := console + [header[index]];
            index := index + 1;
          }
          assert console == header;
          index := 0;
          while index < |message| && message[index] != '\0'
            invariant 0 <= index <= |message| && console == header + message[..index]
            invariant forall j | 0 <= j < index :: message[j] != '\0'
          {
            console := console + [message[index]];
            index := index + 1;
          }
          CStringPrefix(message, index);
          console := console + ['\n'];
          console := console + ['\r'];
        }
        i := i + 1;
      }
    }
  }

  /** The characters before the first terminator, when the scan stops at `n`. */
  lemma {:induction false} CStringPrefix(s: seq<char>, n: nat)
    requires n <= |s| && (n < |s| ==> s[n] == '\0')
    requires forall j | 0 <= j < n :: s[j] != '\0'
    ensures CString(s) == s[..n]
  {
    if n > 0 {
      CStringPrefix(s[1..], n - 1);
      assert s[..n] == [s[0]] + s[1..][..n - 1];
    }
  }
}
