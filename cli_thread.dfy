/**
 * The line editor of the serial command console
 * (A07G_exploring-the-cli/Application/src/CliThread/CliThread.c), one
 * received character at a time, and the two console commands that only
 * format text (clear screen and version).
 *
 * The editor's state is the static buffers of `vCommandConsoleTask`: the
 * input line (MAX_INPUT_LENGTH_CLI = 50 bytes) and its index, the copy of
 * the last command, and the escape-sequence collector. `Step` gives the
 * meaning of one character as a function of the state; the class `Console`
 * processes a character in place on the buffers and is proved to agree with
 * it. The command interpreter is the oracle `interpret`: its whole output for
 * a given input buffer. Text written to the serial console accumulates in
 * `out`; a write stops at the first NUL, as a C string does.
 *
 * MAX_INPUT_LENGTH_CLI, the escape-code sizes (4 and 2) and the ASCII codes
 * come from CliThread.h, which is not part of this model; the values used
 * are the ones that header defines.
 */
module CliThread {

  const MaxInputLength: nat := 50
  const EscapeCodeSize: nat := 4
  const MinEscapeCodeSize: nat := 2
  const Nul: char := 0 as char
  const Backspace: char := 0x08 as char
  const Delete: char := 0x7F as char
  const Esc: char := 27 as char
  const FirmwareVersion: string := "0.0.1"

  // ---------------------------------------------------------------------------
  // C strings
  // ---------------------------------------------------------------------------

  /** strlen over a buffer: the index of the first NUL, or the whole buffer if it holds none. */
  function StrLen(s: seq<char>): (n: nat)
    ensures n <= |s|
    ensures forall i | 0 <= i < n :: s[i] != Nul
    ensures n < |s| ==> s[n] == Nul
  {
    if s == [] then 0 else if s[0] == Nul then 0 else 1 + StrLen(s[1..])
  }

  /** The text a C string in the buffer denotes: everything before the first NUL. */
  function CString(s: seq<char>): seq<char> {
    s[..StrLen(s)]
  }

  /** strncpy(dst, src, n) into the first n bytes: src up to its first NUL, then NUL padding. */
  function StrNCpy(src: seq<char>, n: nat): (r: seq<char>)
    requires n <= |src|
    ensures |r| == n
    ensures CString(r) == CString(src[..n])
    ensures forall i | StrLen(src[..n]) <= i < n :: r[i] == Nul
  {
    var k := StrLen(src[..n]);
    var r := seq(n, i requires 0 <= i < n => if i < k then src[i] else Nul);
    assert r[..k] == src[..n][..k];
    StrLenOfPrefix(r, k);
    r
  }

  /** A buffer whose first k bytes are not NUL and whose byte k is (or which ends at k) has length k. */
  lemma {:induction false} StrLenOfPrefix(s: seq<char>, k: nat)
    requires k <= |s| && (forall i | 0 <= i < k :: s[i] != Nul) && (k < |s| ==> s[k] == Nul)
    ensures StrLen(s) == k
  {
    if k > 0 {
      StrLenOfPrefix(s[1..], k - 1);
    }
  }

  function Zeros(n: nat): (z: seq<char>)
    ensures |z| == n && forall i | 0 <= i < n :: z[i] == Nul
  {
    seq(n, _ => Nul)
  }

  function Lower(c: char): char {
    if 'A' <= c <= 'Z' then (c as int + 32) as char else c
  }

  /** strcasecmp(a, b) == 0: the two C strings agree up to ASCII case. */
  predicate StrCaseEq(a: seq<char>, b: seq<char>) {
    var x, y := CString(a), CString(b);
    |x| == |y| && forall i | 0 <= i < |x| :: Lower(x[i]) == Lower(y[i])
  }

  // ---------------------------------------------------------------------------
  // The editor, as a function of its state
  // ---------------------------------------------------------------------------

  /**
   * The statics of vCommandConsoleTask: pcInputString and cInputIndex,
   * pcLastCommand, isEscapeCode, pcEscapeCodes and pcEscapeCodePos; `out` is
   * everything written to the console so far.
   */
  datatype Editor = Editor(
    input: seq<char>, index: nat, last: seq<char>,
    escape: bool, codes: seq<char>, pos: nat,
    out: seq<char>)

  /** The buffers have their declared sizes and the index lies within the input buffer. */
  predicate Shaped(e: Editor) {
    |e.input| == MaxInputLength && |e.last| == MaxInputLength && |e.codes| == EscapeCodeSize &&
    e.index <= MaxInputLength
  }

  /** The state before the first character: every static zeroed. */
  function Initial(): (e: Editor)
    ensures Inv(e)
  {
    Editor(Zeros(50), 0, Zeros(50), false, Zeros(4), 0, [])
  }

  /**
   * What stays true between characters: the input buffer is zero from the
   * index on, the last command is NUL-terminated within the buffer, at most
   * one escape code is pending (none outside escape mode) and the two last
   * escape-code slots are never written.
   */
  predicate Inv(e: Editor) {
    Shaped(e) &&
    (forall i | e.index <= i < MaxInputLength :: e.input[i] == Nul) &&
    e.last[MaxInputLength - 1] == Nul &&
    e.pos < MinEscapeCodeSize && (!e.escape ==> e.pos == 0) &&
    e.codes[2] == Nul && e.codes[3] == Nul
  }

  /**
   * End of line: "\r\n" is written, escape mode is left, the last command
   * becomes the input truncated to 49 bytes and NUL-terminated, the
   * interpreter's output for the input is written, and the input is cleared.
   */
  function EndOfLine(e: Editor, interpret: seq<char> -> seq<char>): (r: Editor)
    requires Shaped(e)
    ensures Shaped(r)
  {
    Editor(Zeros(50), 0, StrNCpy(e.input, 49) + [Nul], false, e.codes, 0,
           e.out + "\r\n" + interpret(e.input))
  }

  /**
   * History recall: "ESC[2K\r>" erases the line and prints a prompt; the input
   * becomes the last command (at most 49 bytes, NUL-terminated), is written,
   * and the index is its length, capped at 49.
   */
  function Recall(e: Editor): (r: Editor)
    requires Shaped(e)
    ensures Shaped(r)
  {
    var input := StrNCpy(e.last, 49) + [Nul];
    var index := if StrLen(input) < 49 then StrLen(e.last) else 49;
    e.(input := input, index := index, out := e.out + [Esc] + "[2K\r>" + CString(input))
  }

  /** One character received while an escape sequence is being collected. */
  function EscapeStep(e: Editor, ch: char): (r: Editor)
    requires Shaped(e)
    ensures Shaped(r)
  {
    var e1 := if e.pos < EscapeCodeSize then e.(codes := e.codes[e.pos := ch], pos := e.pos + 1)
              else e.(escape := false, pos := 0);
    if e1.pos >= MinEscapeCodeSize then
      var e2 := if !StrCaseEq(e1.codes, "oa") then Recall(e1) else e1;
      e2.(escape := false, pos := 0)
    else e1
  }

  /** One received character: the body of the console loop. */
  function Step(e: Editor, ch: char, interpret: seq<char> -> seq<char>): (r: Editor)
    requires Shaped(e)
    ensures Shaped(r)
  {
    if ch == '\n' || ch == '\r' then EndOfLine(e, interpret)
    else if e.escape then EscapeStep(e, ch)
    else if ch == '\r' then e
    else if ch == Backspace || ch == Delete then
      var e1 := e.(out := e.out + [Backspace, ' ', Backspace]);
      if e.index > 0 then e1.(index := e.index - 1, input := e.input[e.index - 1 := Nul]) else e1
    else if ch == Esc then e.(escape := true, pos := 0)
    else
      var e1 := if e.index < MaxInputLength then e.(input := e.input[e.index := ch], index := e.index + 1) else e;
      e1.(out := e.out + CString([ch, Nul]))
  }

  // ---------------------------------------------------------------------------
  // Properties of the editor
  // ---------------------------------------------------------------------------

  /** Every character keeps the invariant; in particular the index never exceeds 50. */
  lemma StepKeepsInv(e: Editor, ch: char, interpret: seq<char> -> seq<char>)
    requires Inv(e)
    ensures Inv(Step(e, ch, interpret))
  {
    if ch == '\n' || ch == '\r' {
    } else if e.escape {
      var e1 := e.(codes := e.codes[e.pos := ch], pos := e.pos + 1);
      if e1.pos >= MinEscapeCodeSize && !StrCaseEq(e1.codes, "oa") {
        RecallInput(e1);
      }
    }
  }

  /** After a recall the input holds the last command's text, zero-padded, and the index is its length. */
  lemma RecallInput(e: Editor)
    requires Shaped(e) && e.last[MaxInputLength - 1] == Nul
    ensures var r := Recall(e);
      CString(r.input) == CString(e.last) && r.index == StrLen(e.last) <= 49 &&
      (forall i | r.index <= i < MaxInputLength :: r.input[i] == Nul) &&
      r.out == e.out + [Esc] + "[2K\r>" + CString(e.last)
  {
    var input := StrNCpy(e.last, 49) + [Nul];
    StrLenOfPrefix(e.last, StrLen(e.last[..49]));
    assert e.last[..49][..StrLen(e.last[..49])] == e.last[..StrLen(e.last)];
    StrLenOfPrefix(input, StrLen(e.last));
  }

  /**
   * A line ends on '\n' and on '\r' alike: the branch of the loop that ignores
   * '\r' is never reached.
   */
  lemma CarriageReturnIsEndOfLine(e: Editor, interpret: seq<char> -> seq<char>)
    requires Shaped(e)
    ensures Step(e, '\r', interpret) == Step(e, '\n', interpret) == EndOfLine(e, interpret)
  {
  }

  /**
   * At the end of a line the last command is the input's text cut to 49
   * bytes and NUL-terminated, the input is all NUL at index 0 and escape
   * mode is off; the interpreter sees the input as it was.
   */
  lemma EndOfLineCommits(e: Editor, interpret: seq<char> -> seq<char>)
    requires Inv(e)
    ensures var r := Step(e, '\n', interpret);
      CString(r.last) == CString(e.input[..49]) && r.last[49] == Nul &&
      r.index == 0 && StrLen(r.input) == 0 && !r.escape && r.pos == 0 &&
      r.out == e.out + "\r\n" + interpret(e.input)
  {
    var r := Step(e, '\n', interpret);
    var k := StrLen(e.input[..49]);
    assert r.last[..49] == StrNCpy(e.input, 49);
    StrLenOfPrefix(r.last, k);
    assert r.last[..k] == StrNCpy(e.input, 49)[..k];
  }

  /**
   * Backspace or DELETE outside escape mode always writes "\b \b"; with text
   * in the buffer it drops the last byte (the index goes down by one and that
   * byte becomes NUL), and at index 0 it leaves the buffer and index alone.
   */
  lemma BackspaceErases(e: Editor, ch: char, interpret: seq<char> -> seq<char>)
    requires Inv(e) && !e.escape && (ch == Backspace || ch == Delete)
    ensures var r := Step(e, ch, interpret);
      r.out == e.out + [Backspace, ' ', Backspace] && r.last == e.last && !r.escape &&
      (e.index > 0 ==> r.index == e.index - 1 && r.input == e.input[e.index - 1 := Nul]) &&
      (e.index == 0 ==> r.index == 0 && r.input == e.input) &&
      (e.index == StrLen(e.input) ==> CString(r.input) == CString(e.input)[..r.index])
  {
    var r := Step(e, ch, interpret);
    if e.index == StrLen(e.input) && e.index > 0 {
      StrLenOfPrefix(r.input, e.index - 1);
    }
  }

  /**
   * An ordinary character outside escape mode is echoed (nothing for NUL);
   * it is appended to the buffer while the index is below 50, and dropped
   * when the buffer is full. When the index marks the end of the text, the
   * text grows by that character.
   */
  lemma TypingAppends(e: Editor, ch: char, interpret: seq<char> -> seq<char>)
    requires Inv(e) && !e.escape
    requires ch !in {'\n', '\r', Backspace, Delete, Esc}
    ensures var r := Step(e, ch, interpret);
      r.out == e.out + (if ch == Nul then [] else [ch]) && r.last == e.last && !r.escape &&
      (e.index < MaxInputLength ==> r.index == e.index + 1 && r.input == e.input[e.index := ch]) &&
      (e.index == MaxInputLength ==> r.index == e.index && r.input == e.input) &&
      (e.index == StrLen(e.input) < MaxInputLength && ch != Nul ==> CString(r.input) == CString(e.input) + [ch])
  {
    var r := Step(e, ch, interpret);
    if ch == Nul {
      StrLenOfPrefix([ch, Nul], 0);
    } else {
      StrLenOfPrefix([ch, Nul], 1);
    }
    if e.index == StrLen(e.input) < MaxInputLength && ch != Nul {
      StrLenOfPrefix(r.input, e.index + 1);
      assert r.input[..e.index + 1] == e.input[..e.index] + [ch];
    }
  }

  /** ESC outside escape mode starts collecting an escape sequence and changes nothing else. */
  lemma EscapeStarts(e: Editor, interpret: seq<char> -> seq<char>)
    requires Inv(e) && !e.escape
    ensures Step(e, Esc, interpret) == e.(escape := true, pos := 0)
  {
  }

  /**
   * The two characters after ESC: the first is stored; the second ends escape
   * mode, and recalls the last command exactly when the two codes are not
   * "oa" in any case. The abandon branch (a fifth code) is never reached.
   */
  lemma EscapeSequence(e: Editor, c1: char, c2: char, interpret: seq<char> -> seq<char>)
    requires Inv(e) && e.escape && e.pos == 0 && c1 != '\n' && c1 != '\r' && c2 != '\n' && c2 != '\r'
    ensures var e1 := Step(e, c1, interpret);
      var e2 := Step(e1, c2, interpret);
      var codes := e.codes[0 := c1][1 := c2];
      e1 == e.(codes := e.codes[0 := c1], pos := 1) &&
      !e2.escape && e2.pos == 0 && e2.codes == codes && e2.last == e.last &&
      (StrCaseEq(codes, "oa") ==> e2.input == e.input && e2.index == e.index && e2.out == e.out) &&
      (!StrCaseEq(codes, "oa") ==>
        CString(e2.input) == CString(e.last) && e2.index == StrLen(e.last) &&
        e2.out == e.out + [Esc] + "[2K\r>" + CString(e.last))
  {
    var e1 := Step(e, c1, interpret);
    var e1b := e1.(codes := e1.codes[1 := c2], pos := 2);
    if !StrCaseEq(e1b.codes, "oa") {
      RecallInput(e1b);
    }
  }

  // ---------------------------------------------------------------------------
  // The formatting commands
  // ---------------------------------------------------------------------------

  /** snprintf(buf, n, "%s", s): at most n - 1 bytes of s (nothing when n is 0). */
  function Snprintf(s: seq<char>, n: nat): (r: seq<char>)
    ensures n > 0 ==> |r| == if |s| < n then |s| else n - 1
    ensures r <= s
  {
    if n == 0 then [] else if |s| < n then s else s[..n - 1]
  }

  /**
   * xCliClearTerminalScreen: writes ESC "[2J" (the VT100 erase-display code)
   * into a buffer of `len` bytes and reports no more output.
   */
  function ClearTerminalScreen(len: nat): (r: (bool, seq<char>))
    ensures !r.0
    ensures len >= 5 ==> r.1 == [Esc, '[', '2', 'J']
    ensures r.1 <= [Esc, '[', '2', 'J']
  {
    (false, Snprintf([Esc] + "[2J", len))
  }

  /** CLI_Version: "Firmware Version: 0.0.1\r\n", cut to the buffer, and no more output. */
  function Version(len: nat): (r: (bool, seq<char>))
    ensures !r.0
    ensures len > 25 ==> r.1 == "Firmware Version: 0.0.1\r\n"
    ensures r.1 <= "Firmware Version: 0.0.1\r\n"
  {
    (false, Snprintf("Firmware Version: " + FirmwareVersion + "\r\n", len))
  }

  // ---------------------------------------------------------------------------
  // The editor, in place
  // ---------------------------------------------------------------------------

  /** memset(a, 0x00, a.Length). */
  method Memset(a: array<char>)
    modifies a
    ensures a[..] == Zeros(a.Length)
  {
    var i := 0;
    while i < a.Length
      invariant 0 <= i <= a.Length
      invariant forall j | 0 <= j < i :: a[j] == Nul
    {
      a[i] := Nul;
      i := i + 1;
    }
  }

  /** strlen(a). */
  method Strlen(a: array<char>) returns (n: nat)
    ensures n == StrLen(a[..])
  {
    n := 0;
    while n < a.Length && a[n] != Nul
      invariant n <= a.Length
      invariant forall j | 0 <= j < n :: a[j] != Nul
    {
      n := n + 1;
    }
    StrLenOfPrefix(a[..], n);
  }

  /** strncpy(dst, src, n): the first n bytes of dst as StrNCpy describes, the rest untouched. */
  method Strncpy(dst: array<char>, src: array<char>, n: nat)
    requires dst != src && n <= dst.Length && n <= src.Length
    modifies dst
    ensures dst[..n] == StrNCpy(src[..], n)
    ensures dst[n..] == old(dst[n..])
  {
    ghost var k := StrLen(src[..n]);
    ghost var target := StrNCpy(src[..], n);
    var ended := false;
    var i := 0;
    while i < n
      invariant 0 <= i <= n
      invariant ended <==> k < i
      invariant dst[..i] == target[..i]
      invariant dst[n..] == old(dst[n..])
    {
      if !ended && src[i] != Nul {
        dst[i] := src[i];
      } else {
        ended := true;
        dst[i] := Nul;
      }
      i := i + 1;
    }
  }

  class Console {
    /** pcInputString, pcLastCommand and pcEscapeCodes. */
    const input: array<char>
    const last: array<char>
    const codes: array<char>
    /** cInputIndex, isEscapeCode and pcEscapeCodePos. */
    var index: nat
    var escape: bool
    var pos: nat
    /** Everything written to the serial console so far. */
    var out: seq<char>
    /** The command interpreter's output for an input buffer. */
    const interpret: seq<char> -> seq<char>

    ghost predicate Valid()
      reads this
    {
      input.Length == MaxInputLength && last.Length == MaxInputLength && codes.Length == EscapeCodeSize &&
      input != last && index <= MaxInputLength
    }

    /** The state as the value `Step` works on. */
    ghost function Abs(): Editor
      reads this, input, last, codes
    {
      Editor(input[..], index, last[..], escape, codes[..], pos, out)
    }

    constructor (interpret: seq<char> -> seq<char>)
      ensures Valid() && Abs() == Initial() && this.interpret == interpret
      ensures fresh(input) && fresh(last) && fresh(codes)
    {
      input := new char[50](_ => Nul);
      last := new char[50](_ => Nul);
      codes := new char[4](_ => Nul);
      index := 0;
      escape := false;
      pos := 0;
      out := [];
      this.interpret := interpret;
    }

    /** End of line: echo, store the history, hand the input to the interpreter, clear the input. */
    method EndLine()
      requires Valid()
      modifies this, input, last
      ensures Valid()
      ensures Abs() == EndOfLine(old(Abs()), interpret)
    {
      out := out + "\r\n";
      escape := false;
      pos := 0;
      Strncpy(last, input, 49);
      last[49] := Nul;
      assert last[..] == last[..49] + [Nul];
      out := out + interpret(input[..]);
      index := 0;
      Memset(input);
    }

    /** History recall: erase the line, copy the last command into the input and write it. */
    method RecallLast()
      requires Valid()
      modifies this, input
      ensures Valid()
      ensures Abs() == Recall(old(Abs()))
    {
      out := out + [Esc] + "[2K\r>";
      index := 0;
      Memset(input);
      Strncpy(input, last, 49);
      assert input[..] == input[..49] + [Nul];
      var n := Strlen(input);
      var m := Strlen(last);
      index := if n < 49 then m else 49;
      out := out + input[..n];
    }

    /** A character received in escape mode. */
    method EscapeChar(ch: char)
      requires Valid() && escape
      modifies this, input, codes
      ensures Valid()
      ensures Abs() == EscapeStep(old(Abs()), ch)
    {
      if pos < EscapeCodeSize {
        codes[pos] := ch;
        pos := pos + 1;
      } else {
        escape := false;
        pos := 0;
      }
      if pos >= MinEscapeCodeSize {
        if !StrCaseEq(codes[..], "oa") {
          RecallLast();
        }
        escape := false;
        pos := 0;
      }
    }

    /** The body of the console loop for one received character. */
    method ProcessChar(ch: char)
      requires Valid()
      modifies this, input, last, codes
      ensures Valid()
      ensures Abs() == Step(old(Abs()), ch, interpret)
    {
      if ch == '\n' || ch == '\r' {
        EndLine();
      } else {
        if escape {
          EscapeChar(ch);
        } else if ch == '\r' {
          // Carriage returns are ignored.
        } else if ch == Backspace || ch == Delete {
          out := out + [Backspace, ' ', Backspace];
          if index > 0 {
            index := index - 1;
            input[index] := Nul;
          }
        } else if ch == Esc {
          escape := true;
          pos := 0;
        } else {
          if index < MaxInputLength {
            input[index] := ch;
            index := index + 1;
          }
          out := out + CString([ch, Nul]);
        }
      }
    }
  }
}
