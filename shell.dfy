// The user-mode shell: byte-string equality, whitespace trimming, the built-in
// command table of `process_command`, and the line reader of `_start` that fills
// a 256-byte buffer one character at a time.

module Shell {
  import opened Words
  import Syscall

  type Bytes = seq<u8>

  const MAX_INPUT: nat := 256
  const SYS_GETPID: u64 := 39

  /** The bytes of an ASCII string literal (each character's code, taken modulo 256). */
  function Ascii(s: string): (b: Bytes)
    ensures |b| == |s| && forall i :: 0 <= i < |s| ==> b[i] == s[i] as int % 256
  {
    seq(|s|, i requires 0 <= i < |s| => s[i] as int % 256)
  }

  const EXIT: Bytes := Ascii("exit")
  const HELP: Bytes := Ascii("help")
  const ECHO_SP: Bytes := Ascii("echo ")
  const ECHO: Bytes := Ascii("echo")
  const PID: Bytes := Ascii("pid")

  // ---------------------------------------------------------------------
  // streq

  /** `streq(a, b)`: equal lengths and every byte equal. */
  method Streq(a: Bytes, b: Bytes) returns (eq: bool)
    ensures eq <==> |a| == |b| && forall i :: 0 <= i < |a| ==> a[i] == b[i]
    ensures eq <==> a == b
  {
    if |a| != |b| {
      return false;
    }
    for i := 0 to |a|
      invariant forall j :: 0 <= j < i ==> a[j] == b[j]
    {
      if a[i] != b[i] {
        return false;
      }
    }
    return true;
  }

  // ---------------------------------------------------------------------
  // trim

  /** The bytes `trim` strips: space, line feed and carriage return (a tab is kept). */
  predicate Blank(c: u8)
  {
    c == 32 || c == 10 || c == 13
  }

  /** Where the first loop of `trim` stops: the first non-blank byte at or after `i`, or `hi`. */
  function KeepFrom(s: Bytes, i: nat, hi: nat): (r: nat)
    requires i <= hi <= |s|
    ensures i <= r <= hi
    ensures forall k :: i <= k < r ==> Blank(s[k])
    ensures r < hi ==> !Blank(s[r])
    decreases hi - i
  {
    if i < hi && Blank(s[i]) then KeepFrom(s, i + 1, hi) else i
  }

  /** Where the second loop of `trim` stops: just past the last non-blank byte before `j`, or `lo`. */
  function KeepTo(s: Bytes, lo: nat, j: nat): (r: nat)
    requires lo <= j <= |s|
    ensures lo <= r <= j
    ensures forall k :: r <= k < j ==> Blank(s[k])
    ensures r > lo ==> !Blank(s[r - 1])
    decreases j - lo
  {
    if j > lo && Blank(s[j - 1]) then KeepTo(s, lo, j - 1) else j
  }

  /** The slice `trim(s)` returns. */
  function Trimmed(s: Bytes): Bytes
  {
    var start := KeepFrom(s, 0, |s|);
    s[start..KeepTo(s, start, |s|)]
  }

  /**
   * `trim(s)` is a contiguous slice of `s` with only blanks around it, and it is empty
   * or starts and ends with a byte that is not blank.
   */
  lemma TrimmedShape(s: Bytes)
    ensures var start := KeepFrom(s, 0, |s|);
            var end := KeepTo(s, start, |s|);
            && Trimmed(s) == s[start..end]
            && (forall k :: 0 <= k < start ==> Blank(s[k]))
            && (forall k :: end <= k < |s| ==> Blank(s[k]))
            && (Trimmed(s) != [] ==> !Blank(Trimmed(s)[0]) && !Blank(Trimmed(s)[|Trimmed(s)| - 1]))
  {
  }

  /** A slice with nothing to strip is its own trim. */
  lemma TrimmedOfKept(t: Bytes)
    requires t == [] || (!Blank(t[0]) && !Blank(t[|t| - 1]))
    ensures Trimmed(t) == t
  {
    if t != [] {
      assert KeepFrom(t, 0, |t|) == 0;
      assert KeepTo(t, 0, |t|) == |t|;
    }
  }

  /** `trim` is idempotent. */
  lemma TrimIdempotent(s: Bytes)
    ensures Trimmed(Trimmed(s)) == Trimmed(s)
  {
    TrimmedShape(s);
    TrimmedOfKept(Trimmed(s));
  }

  /** `trim(s)`: advance `start` over leading blanks, then pull `end` back over trailing ones. */
  method Trim(s: Bytes) returns (r: Bytes)
    ensures r == Trimmed(s)
  {
    var start := 0;
    var end := |s|;
    while start < end && Blank(s[start])
      invariant start <= end == |s|
      invariant KeepFrom(s, start, end) == KeepFrom(s, 0, |s|)
      decreases end - start
    {
      start := start + 1;
    }
    while end > start && Blank(s[end - 1])
      invariant start <= end <= |s|
      invariant start == KeepFrom(s, 0, |s|)
      invariant KeepTo(s, start, end) == KeepTo(s, start, |s|)
      decreases end - start
    {
      end := end - 1;
    }
    r := s[start..end];
  }

  // ---------------------------------------------------------------------
  // process_command

  /** The command `process_command` recognises in a line. */
  datatype Command = Empty | Exit | Help | Echo(rest: Bytes) | EchoBlank | Pid | Unknown(cmd: Bytes)

  /** The first rule that matches the trimmed line wins. */
  function Classify(input: Bytes): (c: Command)
    ensures c.Empty? <==> Trimmed(input) == []
    ensures c.Unknown? ==> c.cmd == Trimmed(input) && c.cmd != []
    ensures c.Echo? ==> Trimmed(input) == ECHO_SP + c.rest
  {
    var cmd := Trimmed(input);
    if cmd == [] then Empty
    else if cmd == EXIT then Exit
    else if cmd == HELP then Help
    else if |cmd| >= 5 && cmd[..5] == ECHO_SP then
      assert cmd == cmd[..5] + cmd[5..];
      Echo(cmd[5..])
    else if cmd == ECHO then EchoBlank
    else if cmd == PID then Pid
    else Unknown(cmd)
  }

  /** The bytes `process_command` writes to stdout and the exit code it ends with, if any. */
  datatype Effect = Effect(out: Bytes, exitCode: Option<int>)

  const NL: Bytes := [10]

  /** The help text, one `println` per line. */
  function HelpText(): Bytes
  {
    Ascii("Built-in commands:\n") + Ascii("  help  - Show this help\n") + Ascii("  echo  - Echo arguments\n")
    + Ascii("  pid   - Show process ID\n") + Ascii("  exit  - Exit shell\n")
  }

  /** `(pid as u8) + b'0'`: the low byte of the pid plus 48, wrapping at 256. */
  function PidDigit(pid: int): (r: u8)
    ensures 0 <= pid <= 9 ==> r == '0' as int + pid
    ensures (r - 48 - pid) % 256 == 0
  {
    (pid % 256 + 48) % 256
  }

  /** What `process_command(input)` does, given the value `getpid()` returns. */
  function Process(input: Bytes, pid: int): (e: Effect)
    ensures e.exitCode.Some? <==> Classify(input).Exit?
    ensures Classify(input).Echo? ==> e.out == Classify(input).rest + NL
  {
    match Classify(input)
    case Empty => Effect([], None)
    case Exit => Effect(Ascii("Goodbye!\n"), Some(0))
    case Help => Effect(HelpText(), None)
    case Echo(rest) => Effect(rest + NL, None)
    case EchoBlank => Effect(NL, None)
    case Pid => Effect(Ascii("PID: ") + [PidDigit(pid)] + NL, None)
    case Unknown(cmd) => Effect(Ascii("Unknown command: ") + cmd + NL + Ascii("Type 'help' for available commands.\n"), None)
  }

  /** Blank lines do nothing; surrounding blanks never change the command. */
  lemma ProcessIgnoresBlanks(input: Bytes, pid: int)
    ensures Trimmed(input) == [] ==> Process(input, pid) == Effect([], None)
    ensures Process(Trimmed(input), pid) == Process(input, pid)
  {
    TrimIdempotent(input);
    assert Classify(Trimmed(input)) == Classify(input);
  }

  /**
   * The rules in order: "exit", "help", then any "echo " prefix (so "echo help" echoes
   * "help"), "echo", "pid", and everything else is unknown and echoed back.
   */
  lemma ClassifyRules(input: Bytes)
    ensures Trimmed(input) == EXIT ==> Classify(input) == Exit
    ensures Trimmed(input) == HELP ==> Classify(input) == Help
    ensures Trimmed(input) == ECHO ==> Classify(input) == EchoBlank
    ensures Trimmed(input) == PID ==> Classify(input) == Pid
    ensures forall rest :: Trimmed(input) == ECHO_SP + rest ==> Classify(input) == Echo(rest)
    ensures Classify(input).Unknown? ==>
              Trimmed(input) !in {EXIT, HELP, ECHO, PID}
              && !(|Trimmed(input)| >= 5 && Trimmed(input)[..5] == ECHO_SP)
  {
    var cmd := Trimmed(input);
    forall rest | cmd == ECHO_SP + rest
      ensures Classify(input) == Echo(rest)
    {
      assert cmd[..5] == ECHO_SP;
      assert cmd[5..] == rest;
    }
  }

  /**
   * The kernel's dispatcher has no `getpid` (39): it answers -1, whose low byte is 255,
   * so the digit `pid` prints is `255 + 48` wrapped, the byte `/`.
   */
  lemma PidAgainstKernel()
    ensures Syscall.Dispatch(SYS_GETPID, 0, 0, 0) == Syscall.Returned(-1)
    ensures -1 % 256 + 48 >= 256
    ensures PidDigit(-1) == 47
  {
    Syscall.DispatchFails(SYS_GETPID, 0, 0, 0);
  }

  // ---------------------------------------------------------------------
  // The line reader of `_start`

  /** A line ends at a line feed or a carriage return. */
  predicate Eol(c: u8)
  {
    c == 10 || c == 13
  }

  /** The index of the first end-of-line byte of `input`. */
  function LineEnd(input: Bytes): (n: nat)
    requires exists k :: 0 <= k < |input| && Eol(input[k])
    ensures n < |input| && Eol(input[n])
    ensures forall k :: 0 <= k < n ==> !Eol(input[k])
  {
    if Eol(input[0]) then 0
    else
      assert exists k :: 0 <= k < |input[1..]| && Eol(input[1..][k]) by {
        var k :| 0 <= k < |input| && Eol(input[k]);
        assert k > 0 && input[1..][k - 1] == input[k];
      }
      1 + LineEnd(input[1..])
  }

  /** The bytes the reader keeps of a line: at most `MAX_INPUT - 1`, the rest dropped. */
  function Kept(line: Bytes): (r: Bytes)
    ensures |r| <= MAX_INPUT - 1 && r <= line
    ensures |line| <= MAX_INPUT - 1 ==> r == line
  {
    if |line| <= MAX_INPUT - 1 then line else line[..MAX_INPUT - 1]
  }

  /**
   * One line of `_start`'s reader over the bytes `input` returns (a `read` that returns
   * nothing is retried and does not appear): store the bytes before the first line end,
   * up to 255 of them, echoing each stored byte, then store a 0 after them and echo a
   * newline. Returns the length and how many input bytes were consumed.
   */
  method ReadLine(buf: array<u8>, input: Bytes) returns (len: nat, consumed: nat, echo: Bytes)
    requires buf.Length == MAX_INPUT
    requires exists k :: 0 <= k < |input| && Eol(input[k])
    modifies buf
    ensures consumed == LineEnd(input) + 1
    ensures len < MAX_INPUT && buf[len] == 0
    ensures buf[..len] == Kept(input[..LineEnd(input)])
    ensures forall k :: len < k < MAX_INPUT ==> buf[k] == old(buf[k])
    ensures echo == Kept(input[..LineEnd(input)]) + NL
  {
    ghost var n := LineEnd(input);
    len := 0;
    var i := 0;
    while !Eol(input[i])
      invariant i <= n
      invariant len <= i && len < MAX_INPUT && (len < MAX_INPUT - 1 ==> len == i)
      invariant forall k :: 0 <= k < len ==> buf[k] == input[k]
      invariant forall k :: len <= k < MAX_INPUT ==> buf[k] == old(buf[k])
      decreases n - i
    {
      if len < MAX_INPUT - 1 {
        buf[len] := input[i];
        len := len + 1;
      }
      i := i + 1;
    }
    buf[len] := 0;
    assert input[..n][..len] == input[..len];
    assert buf[..len] == input[..len];
    echo := buf[..len] + NL;
    consumed := i + 1;
  }
}
