/** Bounding externally sourced text (`TerminalText` in `internal/redact/redact.go`). */
module Redact {
  import opened Utf8

  const ESC: Byte := 0x1B
  const ELLIPSIS: seq<Byte> := [0xE2, 0x80, 0xA6]
  const REPLACEMENT: seq<Byte> := [0xEF, 0xBF, 0xBD]

  function RunLength(s: seq<Byte>, lo: int, hi: int): (n: nat)
    ensures n <= |s|
  {
    if s != [] && lo <= s[0] <= hi then 1 + RunLength(s[1..], lo, hi) else 0
  }

  /** Length of the match of `\x1b\[[0-?]*[ -/]*[@-~]` at the front, or 0. */
  function AnsiLength(s: seq<Byte>): (n: nat)
    ensures n <= |s|
  {
    if |s| < 2 || s[0] != ESC || s[1] != 0x5B then 0
    else
      var parameters := 2 + RunLength(s[2..], 0x30, 0x3F);
      var intermediates := parameters + RunLength(s[parameters..], 0x20, 0x2F);
      if intermediates < |s| && 0x40 <= s[intermediates] <= 0x7E then intermediates + 1 else 0
  }

  function StripAnsi(s: seq<Byte>): seq<Byte> {
    if s == [] then []
    else if AnsiLength(s) > 0 then StripAnsi(s[AnsiLength(s)..])
    else [s[0]] + StripAnsi(s[1..])
  }

  predicate InRange(s: seq<Byte>, lo: int, hi: int) { forall i :: 0 <= i < |s| ==> lo <= s[i] <= hi }

  lemma {:induction false} RunLengthExact(run: seq<Byte>, rest: seq<Byte>, lo: int, hi: int)
    requires InRange(run, lo, hi) && rest != [] && !(lo <= rest[0] <= hi)
    ensures RunLength(run + rest, lo, hi) == |run|
  {
    if run == [] {
      assert run + rest == rest;
    } else {
      assert (run + rest)[1..] == run[1..] + rest;
      RunLengthExact(run[1..], rest, lo, hi);
    }
  }

  function ControlSequence(params: seq<Byte>, inter: seq<Byte>, final: Byte): seq<Byte> {
    [ESC, 0x5B] + params + inter + [final]
  }

  lemma AnsiLengthExact(params: seq<Byte>, inter: seq<Byte>, final: Byte, b: seq<Byte>)
    requires InRange(params, 0x30, 0x3F) && InRange(inter, 0x20, 0x2F) && 0x40 <= final <= 0x7E
    ensures AnsiLength(ControlSequence(params, inter, final) + b) == |ControlSequence(params, inter, final)|
  {
    var s := ControlSequence(params, inter, final) + b;
    assert s[2..] == params + (inter + [final] + b);
    RunLengthExact(params, inter + [final] + b, 0x30, 0x3F);
    assert s[2 + |params|..] == inter + ([final] + b);
    RunLengthExact(inter, [final] + b, 0x20, 0x2F);
  }

  lemma {:induction false} RunLengthSound(s: seq<Byte>, lo: int, hi: int)
    ensures InRange(s[..RunLength(s, lo, hi)], lo, hi)
  {
    if s != [] && lo <= s[0] <= hi {
      RunLengthSound(s[1..], lo, hi);
      var n := RunLength(s[1..], lo, hi);
      assert s[..n + 1] == [s[0]] + s[1..][..n];
    }
  }

  /** Nothing but a whole control sequence is ever removed. */
  lemma AnsiLengthSound(s: seq<Byte>) returns (params: seq<Byte>, inter: seq<Byte>, final: Byte)
    requires AnsiLength(s) > 0
    ensures InRange(params, 0x30, 0x3F) && InRange(inter, 0x20, 0x2F) && 0x40 <= final <= 0x7E
    ensures s[..AnsiLength(s)] == ControlSequence(params, inter, final)
  {
    RunLengthSound(s[2..], 0x30, 0x3F);
    var p := 2 + RunLength(s[2..], 0x30, 0x3F);
    RunLengthSound(s[p..], 0x20, 0x2F);
    var i := p + RunLength(s[p..], 0x20, 0x2F);
    params, inter, final := s[2..p], s[p..i], s[i];
    assert s[2..][..p - 2] == params && s[p..][..i - p] == inter;
    assert s[..i + 1] == [ESC, 0x5B] + params + inter + [final];
  }

  lemma {:induction false} StripAnsiKeepsPlain(a: seq<Byte>, s: seq<Byte>)
    requires ESC !in a
    ensures StripAnsi(a + s) == a + StripAnsi(s)
  {
    if a == [] {
      assert a + s == s;
    } else {
      var head, tail := a[0], a[1..];
      assert a == [head] + tail;
      StripAnsiKeepsPlain(tail, s);
      PlainHead(head, tail + s);
      Associative([head], tail, s);
      Associative([head], tail, StripAnsi(s));
    }
  }

  lemma Associative(a: seq<Byte>, b: seq<Byte>, c: seq<Byte>)
    ensures a + (b + c) == a + b + c
  {
  }

  lemma PlainHead(b: Byte, s: seq<Byte>)
    requires b != ESC
    ensures StripAnsi([b] + s) == [b] + StripAnsi(s)
  {
    assert ([b] + s)[1..] == s;
  }

  /** Text in which no control sequence begins is left alone, lone escapes and all. */
  lemma {:induction false} StripAnsiKeepsRest(s: seq<Byte>)
    requires forall i :: 0 <= i < |s| ==> AnsiLength(s[i..]) == 0
    ensures StripAnsi(s) == s
  {
    if s != [] {
      assert s[0..] == s;
      forall i | 0 <= i < |s[1..]| ensures AnsiLength(s[1..][i..]) == 0 {
        assert s[1..][i..] == s[i + 1..];
      }
      StripAnsiKeepsRest(s[1..]);
      assert s == [s[0]] + s[1..];
    }
  }

  /** A control sequence inside escape-free text disappears and joins what it had split: the
      redactor sees the text a terminal would show. */
  lemma StripAnsiRejoins(a: seq<Byte>, params: seq<Byte>, inter: seq<Byte>, final: Byte, b: seq<Byte>)
    requires ESC !in a && ESC !in b
    requires InRange(params, 0x30, 0x3F) && InRange(inter, 0x20, 0x2F) && 0x40 <= final <= 0x7E
    ensures StripAnsi(a + (ControlSequence(params, inter, final) + b)) == a + b
  {
    var s := ControlSequence(params, inter, final) + b;
    StripAnsiKeepsPlain(a, s);
    AnsiLengthExact(params, inter, final, b);
    assert s[|ControlSequence(params, inter, final)|..] == b;
    StripAnsiKeepsPlain(b, []);
    assert b + [] == b;
  }

  predicate Kept(c: int) { c == 0x0A || c == 0x0D || c == 0x09 || c >= 0x20 }

  /** `strings.Map` dropping controls: every character is kept or removed whole, and a byte that
      starts no character becomes U+FFFD. */
  function DropControls(s: seq<Byte>): seq<Byte> {
    if s == [] then []
    else if CharLength(s) == 0 then REPLACEMENT + DropControls(s[1..])
    else (if Kept(DecodeChar(s)) then s[..CharLength(s)] else []) + DropControls(s[CharLength(s)..])
  }

  /** A character that is no C0 control, or one of newline, carriage return and tab. */
  ghost predicate Harmless(c: int) { c >= 0x20 || c in {0x09, 0x0A, 0x0D} }

  ghost function KeepScalars(text: seq<Scalar>): seq<Scalar> {
    if text == [] then [] else (if Harmless(text[0]) then [text[0]] else []) + KeepScalars(text[1..])
  }

  ghost predicate Clean(s: seq<Byte>) {
    forall i :: 0 <= i < |s| ==> s[i] >= 0x20 || s[i] == 0x09 || s[i] == 0x0A || s[i] == 0x0D
  }

  lemma {:induction false} ValidAppend(a: seq<Byte>, b: seq<Byte>)
    requires Valid(a) && Valid(b)
    ensures Valid(a + b)
  {
    if a == [] {
      assert a + b == b;
    } else {
      var n := CharLength(a);
      CharLengthExtends(a, b);
      assert (a + b)[n..] == a[n..] + b;
      ValidAppend(a[n..], b);
    }
  }

  lemma CharLengthExtends(a: seq<Byte>, b: seq<Byte>)
    requires CharLength(a) > 0
    ensures CharLength(a + b) == CharLength(a)
  {
    assert forall i :: 0 <= i < |a| ==> (a + b)[i] == a[i];
  }

  lemma CharacterValid(s: seq<Byte>)
    requires CharLength(s) > 0
    ensures Valid(s[..CharLength(s)])
    ensures Kept(DecodeChar(s)) ==> Clean(s[..CharLength(s)])
  {
    CharLengthLocal(s, CharLength(s));
    assert s[..CharLength(s)][CharLength(s)..] == [];
    assert Encode(DecodeChar(s)) == s[..CharLength(s)];
  }

  lemma ReplacementIsClean()
    ensures Valid(REPLACEMENT) && Clean(REPLACEMENT)
  {
    assert CharLength(REPLACEMENT) == 3 && REPLACEMENT[3..] == [];
  }

  lemma CleanAppend(a: seq<Byte>, b: seq<Byte>)
    requires Valid(a) && Valid(b) && Clean(a) && Clean(b)
    ensures Valid(a + b) && Clean(a + b)
  {
    ValidAppend(a, b);
  }

  /** Whatever bytes come in, valid UTF-8 without stray controls goes to the redactor. */
  lemma {:induction false} DropControlsCleans(s: seq<Byte>)
    ensures Valid(DropControls(s)) && Clean(DropControls(s))
  {
    if s != [] {
      var n := CharLength(s);
      if n == 0 {
        DropControlsCleans(s[1..]);
        ReplacementIsClean();
        CleanAppend(REPLACEMENT, DropControls(s[1..]));
      } else {
        CharacterValid(s);
        DropControlsCleans(s[n..]);
        CleanAppend(if Kept(DecodeChar(s)) then s[..n] else [], DropControls(s[n..]));
      }
    }
  }

  lemma DecodeEncoded(c: Scalar, rest: seq<Byte>)
    ensures CharLength(Encode(c) + rest) == |Encode(c)| && DecodeChar(Encode(c) + rest) == c
  {
    EncodeWellFormed(c, rest);
    var d := DecodeChar(Encode(c) + rest);
    assert Encode(d) == (Encode(c) + rest)[..|Encode(c)|] == Encode(c);
    EncodeInjective(c, d);
  }

  lemma EncodeInjective(c: Scalar, d: Scalar)
    requires Encode(c) == Encode(d)
    ensures c == d
  {
    var x, y, z := c / 64, c / 64 / 64, c / 64 / 64 / 64;
    assert c == 64 * x + c % 64 && x == 64 * y + x % 64 && y == 64 * z + y % 64;
    var x', y', z' := d / 64, d / 64 / 64, d / 64 / 64 / 64;
    assert d == 64 * x' + d % 64 && x' == 64 * y' + x' % 64 && y' == 64 * z' + y' % 64;
    var s, t := Encode(c), Encode(d);
    assert |s| == |t| && s[0] == t[0];
    if |s| >= 2 { assert s[1] == t[1]; }
    if |s| >= 3 { assert s[2] == t[2]; }
    if |s| >= 4 { assert s[3] == t[3]; }
  }

  /** On valid text the mapping removes exactly the unwanted controls, scalar by scalar. */
  lemma {:induction false} DropControlsExact(text: seq<Scalar>)
    ensures DropControls(EncodeAll(text)) == EncodeAll(KeepScalars(text))
  {
    if text != [] {
      var first, rest := Encode(text[0]), EncodeAll(text[1..]);
      DecodeEncoded(text[0], rest);
      assert (first + rest)[..|first|] == first && (first + rest)[|first|..] == rest;
      DropControlsExact(text[1..]);
      if Kept(text[0]) {
        assert KeepScalars(text)[1..] == KeepScalars(text[1..]);
      } else {
        assert KeepScalars(text) == KeepScalars(text[1..]);
      }
    }
  }

  /** `Text` as far as it matters here: it keeps text valid and adds no control. */
  ghost predicate KeepsClean(redact: seq<Byte> -> seq<Byte>) {
    forall s :: Valid(s) && Clean(s) ==> Valid(redact(s)) && Clean(redact(s))
  }

  /** `kept` is the longest prefix of `s` made of whole characters that fits in `limit` bytes. */
  ghost predicate LongestFitting(kept: seq<Byte>, s: seq<Byte>, limit: nat) {
    && kept <= s && |kept| <= limit && Boundary(s, |kept|)
    && forall k :: |kept| < k <= limit && k <= |s| ==> !Boundary(s, k)
  }

  lemma EllipsisKeepsClean(text: seq<Byte>)
    requires Valid(text) && Clean(text)
    ensures Valid(text + ELLIPSIS) && Clean(text + ELLIPSIS)
  {
    assert CharLength(ELLIPSIS) == 3 && ELLIPSIS[3..] == [];
    ValidAppend(text, ELLIPSIS);
  }

  /** What the bound makes of normalised and redacted text. */
  ghost predicate IsBounded(result: seq<Byte>, full: seq<Byte>, maxBytes: int) {
    if maxBytes <= 0 || |full| <= maxBytes then result == full
    else maxBytes <= |result| <= maxBytes + 3
         && exists kept :: result == kept + ELLIPSIS && LongestFitting(kept, full, maxBytes)
  }

  /** On the way down from `limit` to the last boundary before it. */
  ghost predicate Trimming(full: seq<Byte>, n: nat, limit: nat, boundary: nat) {
    boundary <= n <= limit && Boundary(full, boundary) && forall k :: n < k <= limit ==> !Boundary(full, k)
  }

  lemma TrimStep(full: seq<Byte>, n: nat, limit: nat, boundary: nat)
    requires Trimming(full, n, limit, boundary) && n <= |full| && Valid(full) && !Valid(full[..n])
    ensures n > boundary && Trimming(full, n - 1, limit, boundary) && full[..n][..n - 1] == full[..n - 1]
  {
    CutValidIffBoundary(full, n);
  }

  /** The truncation loop: drop bytes until what is left is valid. */
  method CutToCharacters(full: seq<Byte>, limit: nat) returns (text: seq<Byte>)
    requires Valid(full) && limit < |full|
    ensures Valid(text) && LongestFitting(text, full, limit) && limit - 3 <= |text|
  {
    text := full[..limit];
    ghost var nearby := BoundaryNearby(full, limit);
    while !Valid(text)
      invariant |text| <= limit && text == full[..|text|] && Trimming(full, |text|, limit, nearby)
      decreases |text|
    {
      TrimStep(full, |text|, limit, nearby);
      text := text[..|text| - 1];
    }
    CutValidIffBoundary(full, |text|);
  }

  /** Normalise, redact, and bound: for every byte string the result is valid UTF-8 without
      controls; text over the bound keeps exactly its longest prefix of whole characters, losing
      at most three bytes to the cut, and gains the ellipsis. */
  method TerminalText(value: seq<Byte>, maxBytes: int, redact: seq<Byte> -> seq<Byte>) returns (result: seq<Byte>)
    requires KeepsClean(redact)
    ensures Valid(result) && Clean(result)
    ensures IsBounded(result, redact(DropControls(StripAnsi(value))), maxBytes)
  {
    var normal := DropControls(StripAnsi(value));
    DropControlsCleans(StripAnsi(value));
    var full := redact(normal);
    if maxBytes <= 0 || |full| <= maxBytes {
      result := full;
    } else {
      var text := CutToCharacters(full, maxBytes);
      EllipsisKeepsClean(text);
      result := text + ELLIPSIS;
    }
  }

  /** In terms of characters: the kept prefix is the encoding of the first `n` scalars, and one
      more would not fit. */
  lemma LongestFittingIsWholeCharacters(kept: seq<Byte>, text: seq<Scalar>, limit: nat) returns (n: nat)
    requires LongestFitting(kept, EncodeAll(text), limit)
    ensures n <= |text| && kept == EncodeAll(text[..n])
    ensures n < |text| ==> |EncodeAll(text[..n + 1])| > limit
  {
    n := PrefixAt(text, |kept|);
    BoundaryIsPrefixEnd(text, n);
    if n < |text| {
      BoundaryIsPrefixEnd(text, n + 1);
      EncodeAllGrows(text, n);
    }
  }

  lemma {:induction false} EncodeAllGrows(text: seq<Scalar>, n: nat)
    requires n < |text|
    ensures |EncodeAll(text[..n + 1])| > |EncodeAll(text[..n])|
  {
    if n > 0 {
      EncodeAllGrows(text[1..], n - 1);
      assert text[..n][1..] == text[1..][..n - 1] && text[..n + 1][1..] == text[1..][..n];
    }
  }

  lemma {:induction false} PrefixAt(text: seq<Scalar>, k: nat) returns (n: nat)
    requires k <= |EncodeAll(text)| && Boundary(EncodeAll(text), k)
    ensures n <= |text| && |EncodeAll(text[..n])| == k
  {
    if k == 0 {
      n := 0;
    } else {
      FirstCharacter(text);
      var m := PrefixAt(text[1..], k - |Encode(text[0])|);
      n := m + 1;
      assert text[..n][1..] == text[1..][..m];
    }
  }

  lemma FirstCharacter(text: seq<Scalar>)
    requires text != []
    ensures var s := EncodeAll(text); CharLength(s) == |Encode(text[0])| && s[CharLength(s)..] == EncodeAll(text[1..])
  {
    EncodeWellFormed(text[0], EncodeAll(text[1..]));
  }
}
