/**
 * Bytes of the terminal wire format and the byte-string utilities the codec
 * needs: the bytes that delimit a control sequence (section 5.4 of ECMA-48)
 * and `;`-splitting of a parameter string.
 */
module Bytes {

  import opened Wrappers

  type byte = x: int | 0 <= x < 0x100

  const ESC: byte := 0x1B
  const LEFT_BRACKET: byte := 0x5B  // '['
  const SEMICOLON: byte := 0x3B     // ';'
  const QUESTION: byte := 0x3F      // '?'
  const PLUS: byte := 0x2B          // '+'
  const DIGIT_ZERO: byte := 0x30    // '0'

  // Final bytes that select a command.
  const CHAR_A: byte := 0x41
  const CHAR_B: byte := 0x42
  const CHAR_C: byte := 0x43
  const CHAR_D: byte := 0x44
  const CHAR_E: byte := 0x45
  const CHAR_F: byte := 0x46
  const CHAR_G: byte := 0x47
  const CHAR_H: byte := 0x48
  const CHAR_J: byte := 0x4A
  const CHAR_K: byte := 0x4B
  const CHAR_f: byte := 0x66
  const CHAR_h: byte := 0x68
  const CHAR_l: byte := 0x6C
  const CHAR_m: byte := 0x6D
  const CHAR_s: byte := 0x73
  const CHAR_u: byte := 0x75

  /** The control sequence introducer, ESC followed by `[`. */
  const CSI: seq<byte> := [ESC, LEFT_BRACKET]

  /** The parameter bytes `?25` of the cursor visibility sequences. */
  const QUERY_25: seq<byte> := [QUESTION, 0x32, 0x35]

  /** A final byte of a control sequence: 0x40 to 0x7E. */
  predicate IsFinal(b: byte) {
    0x40 <= b <= 0x7E
  }

  predicate NoFinal(s: seq<byte>) {
    forall i :: 0 <= i < |s| ==> !IsFinal(s[i])
  }

  predicate IsDigit(b: byte) {
    DIGIT_ZERO <= b <= DIGIT_ZERO + 9
  }

  predicate AllDigits(s: seq<byte>) {
    forall i :: 0 <= i < |s| ==> IsDigit(s[i])
  }

  /** True when `s` starts with the control sequence introducer. */
  predicate StartsCsi(s: seq<byte>) {
    |s| >= 2 && s[0] == ESC && s[1] == LEFT_BRACKET
  }

  /** No final byte at any index in [lo, hi). */
  predicate NoFinalBetween(s: seq<byte>, lo: nat, hi: nat) {
    forall i :: lo <= i < hi && i < |s| ==> !IsFinal(s[i])
  }

  /** The first index at or after `from` holding a final byte, if any. */
  function FirstFinal(s: seq<byte>, from: nat): (r: Option<nat>)
    ensures r.Some? ==> from <= r.value < |s| && IsFinal(s[r.value]) && NoFinalBetween(s, from, r.value)
    ensures r.None? ==> NoFinalBetween(s, from, |s|)
    decreases |s| - from
  {
    if from >= |s| then None
    else if IsFinal(s[from]) then Some(from)
    else FirstFinal(s, from + 1)
  }

  /** A final byte after `from`, with none before it, is the one FirstFinal finds. */
  lemma FirstFinalUnique(s: seq<byte>, from: nat, k: nat)
    requires from <= k < |s| && IsFinal(s[k]) && NoFinalBetween(s, from, k)
    ensures FirstFinal(s, from) == Some(k)
  {
  }

  /** With no final byte from `from` on, FirstFinal finds none. */
  lemma {:induction false} FirstFinalNone(s: seq<byte>, from: nat)
    requires NoFinalBetween(s, from, |s|)
    ensures FirstFinal(s, from).None?
    decreases |s| - from
  {
    if from < |s| {
      FirstFinalNone(s, from + 1);
    }
  }

  /** The index of the first occurrence of `b` in `s`. */
  function IndexOf(s: seq<byte>, b: byte): (i: nat)
    requires b in s
    ensures i < |s| && s[i] == b
    ensures forall j :: 0 <= j < i ==> s[j] != b
  {
    if s[0] == b then 0 else IndexOf(s[1..], b) + 1
  }

  /** `str::split(';')`: the pieces between separators; always at least one piece. */
  function Split(s: seq<byte>): (r: seq<seq<byte>>)
    ensures |r| >= 1
    ensures forall k :: 0 <= k < |r| ==> SEMICOLON !in r[k]
    decreases |s|
  {
    if SEMICOLON !in s then [s]
    else
      var i := IndexOf(s, SEMICOLON);
      [s[..i]] + Split(s[i + 1..])
  }

  /** The pieces put back together with `;` between them. */
  function Join(parts: seq<seq<byte>>): seq<byte>
    requires |parts| >= 1
  {
    if |parts| == 1 then parts[0] else parts[0] + [SEMICOLON] + Join(parts[1..])
  }

  /** Splitting loses nothing: joining the pieces gives the string back. */
  lemma {:induction false} JoinSplit(s: seq<byte>)
    ensures Join(Split(s)) == s
    decreases |s|
  {
    if SEMICOLON in s {
      var i := IndexOf(s, SEMICOLON);
      var parts := Split(s);
      assert parts == [s[..i]] + Split(s[i + 1..]);
      assert parts[0] == s[..i] && parts[1..] == Split(s[i + 1..]);
      calc {
        Join(parts);
        s[..i] + [SEMICOLON] + Join(Split(s[i + 1..]));
        { JoinSplit(s[i + 1..]); }
        s[..i] + [SEMICOLON] + s[i + 1..];
        { assert s == s[..i] + [SEMICOLON] + s[i + 1..]; }
        s;
      }
    }
  }

  /** Splitting at the first `;`: the piece before it, then the pieces of what follows. */
  lemma SplitAt(s: seq<byte>, i: nat)
    requires i < |s| && s[i] == SEMICOLON
    requires forall j :: 0 <= j < i ==> s[j] != SEMICOLON
    ensures Split(s) == [s[..i]] + Split(s[i + 1..])
  {
    assert SEMICOLON in s;
    var k := IndexOf(s, SEMICOLON);
    assert k == i;
  }

  /** Joining pieces free of `;` and splitting the result gives the pieces back. */
  lemma {:induction false} SplitJoin(parts: seq<seq<byte>>)
    requires |parts| >= 1
    requires forall k :: 0 <= k < |parts| ==> SEMICOLON !in parts[k]
    ensures Split(Join(parts)) == parts
    decreases |parts|
  {
    if |parts| > 1 {
      var s, head, tail := Join(parts), parts[0], Join(parts[1..]);
      assert s == head + [SEMICOLON] + tail;
      assert s[..|head|] == head && s[|head|] == SEMICOLON && s[|head| + 1..] == tail;
      assert forall j :: 0 <= j < |head| ==> s[j] != SEMICOLON by {
        assert SEMICOLON !in head;
        assert forall j :: 0 <= j < |head| ==> s[j] == head[j];
      }
      calc {
        Split(s);
        { SplitAt(s, |head|); }
        [head] + Split(tail);
        { SplitJoin(parts[1..]); }
        [head] + parts[1..];
        { assert parts == [parts[0]] + parts[1..]; }
        parts;
      }
    }
  }
}
