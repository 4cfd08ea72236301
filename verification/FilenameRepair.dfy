/** Repair of file names whose Korean text was read in a single-byte encoding. Normalization and the
    multi-byte codecs are any functions; the checks the code makes of them are kept. */
module FilenameRepair {
  import opened Paths

  type Byte = n: nat | n < 256

  /** `windows` decodes windows-1252, `utf8` and `korean` decode, `encode` is EUC-KR without errors. */
  datatype Codecs = Codecs(nfc: string -> string, utf8: seq<Byte> -> Option<string>, windows: seq<Byte> -> Option<string>,
                           korean: seq<Byte> -> Option<string>, encode: string -> Option<seq<Byte>>,
                           alphabetic: char -> bool)

  predicate Ascii(c: char) { c as int < 0x80 }

  predicate Control(c: char) { c as int < 0x20 || 0x7f <= c as int <= 0x9f }

  predicate Unsafe(c: char) { Control(c) || c == '/' || c == '\\' || c == '\U{fffd}' }

  predicate UnsafeName(name: string) { exists i :: 0 <= i < |name| && Unsafe(name[i]) }

  predicate AsciiName(name: string) { forall i :: 0 <= i < |name| ==> Ascii(name[i]) }

  const SPECIAL := "\U{20ac}\U{81}\U{201a}\U{192}\U{201e}\U{2026}\U{2020}\U{2021}\U{2c6}\U{2030}\U{160}\U{2039}\U{152}\U{8d}\U{17d}\U{8f}\U{90}\U{2018}\U{2019}\U{201c}\U{201d}\U{2022}\U{2013}\U{2014}\U{2dc}\U{2122}\U{161}\U{203a}\U{153}\U{9d}\U{17e}\U{178}"

  function Position(text: string, c: char): (n: Option<nat>)
    ensures n.Some? ==> n.value < |text| && text[n.value] == c
    ensures n.None? ==> c !in text
  {
    if text == "" then None
    else if text[0] == c then Some(0)
    else
      var rest := Position(text[1..], c);
      if rest.Some? then Some(rest.value + 1) else None
  }

  function WindowsByte(c: char): Option<Byte> {
    if Ascii(c) || 0xa0 <= c as int <= 0xff then Some(c as int)
    else
      var p := Position(SPECIAL, c);
      if p.Some? then Some(0x80 + p.value) else None
  }

  function LatinByte(c: char): Option<Byte> { if c as int <= 0xff then Some(c as int) else None }

  predicate SingleByte(c: char) { c as int <= 0xff || WindowsByte(c).Some? }

  predicate Hangul(c: char) { 0xac00 <= c as int <= 0xd7a3 }

  predicate Plain(c: char) { Ascii(c) && !Control(c) && c != '/' && c != '\\' }

  // ---------------------------------------------------------------- recognizing Korean text

  predicate KoreanText(text: string) { forall i :: 0 <= i < |text| ==> Hangul(text[i]) || Plain(text[i]) }

  function Syllables(text: string): nat {
    if text == "" then 0 else Syllables(text[..|text| - 1]) + if Hangul(text[|text| - 1]) then 1 else 0
  }

  predicate KoreanResult(decoded: string, minimum: nat) { KoreanText(decoded) && Syllables(decoded) >= minimum }

  method CheckKorean(decoded: string, minimum: nat) returns (korean: bool)
    ensures korean == KoreanResult(decoded, minimum)
  {
    var syllables := 0;
    for i := 0 to |decoded|
      invariant KoreanText(decoded[..i]) && syllables == Syllables(decoded[..i])
    {
      assert decoded[..i + 1][..i] == decoded[..i];
      if Hangul(decoded[i]) {
        syllables := syllables + 1;
      } else if !Ascii(decoded[i]) || Control(decoded[i]) || decoded[i] == '/' || decoded[i] == '\\' {
        return false;
      }
    }
    assert decoded[..|decoded|] == decoded;
    return syllables >= minimum;
  }

  const WORDS: seq<string> := [
    "\U{bcf4}\U{ace0}\U{c11c}", "\U{acc4}\U{d68d}\U{c11c}", "\U{d68c}\U{c758}\U{b85d}", "\U{cd5c}\U{c885}",
    "\U{d3ec}\U{c2a4}\U{d130}", "\U{c790}\U{b8cc}", "\U{bb38}\U{c11c}", "\U{c81c}\U{c548}\U{c11c}",
    "\U{bc1c}\U{d45c}", "\U{c0ac}\U{c9c4}", "\U{c774}\U{b825}\U{c11c}", "\U{acc4}\U{c57d}\U{c11c}",
    "\U{c2e0}\U{ccad}\U{c11c}", "\U{c548}\U{b0b4}", "\U{baa9}\U{b85d}"
  ]

  predicate Holds(text: string, word: string) { word <= text || (text != "" && Holds(text[1..], word)) }

  predicate KnownWord(text: string) { exists i :: 0 <= i < |WORDS| && Holds(text, WORDS[i]) }

  // ---------------------------------------------------------------- one span

  function ByteOf(windows: bool, c: char): Option<Byte> { if windows then WindowsByte(c) else LatinByte(c) }

  function BytesOf(windows: bool, span: string): Option<seq<Byte>> {
    if span == "" then Some([])
    else
      var rest := BytesOf(windows, span[1..]);
      var first := ByteOf(windows, span[0]);
      if first.None? || rest.None? then None else Some([first.value] + rest.value)
  }

  /** The bytes of a span that read back as the whole span. */
  function Reversible(codecs: Codecs, windows: bool, span: string): Option<seq<Byte>> {
    var bytes := BytesOf(windows, span);
    if bytes.None? then None
    else if windows && codecs.windows(bytes.value) != Some(span) then None
    else bytes
  }

  function NonAscii(span: string): nat {
    if span == "" then 0 else (if Ascii(span[0]) then 0 else 1) + NonAscii(span[1..])
  }

  predicate Artifact(codecs: Codecs, c: char) {
    var n := c as int;
    || n in {0xa4, 0xa6, 0xa7, 0xa8, 0xd7, 0xf7} || 0xaa <= n <= 0xbf
    || (!Ascii(c) && !codecs.alphabetic(c))
  }

  predicate Artifacts(codecs: Codecs, span: string) { exists i :: 0 <= i < |span| && Artifact(codecs, span[i]) }

  /** A lossless reading of the span's bytes as text. */
  predicate Reads(codecs: Codecs, bytes: seq<Byte>, text: string) {
    || codecs.utf8(bytes) == Some(text)
    || (codecs.korean(bytes) == Some(text) && codecs.encode(text) == Some(bytes))
  }

  /** A reading that is evidence enough for a repair. */
  predicate Convinces(codecs: Codecs, span: string, bytes: seq<Byte>, text: string) {
    || (codecs.utf8(bytes) == Some(text) && KoreanResult(text, 2))
    || (codecs.korean(bytes) == Some(text) && codecs.encode(text) == Some(bytes) && NonAscii(span) >= 6
        && Artifacts(codecs, span) && KoreanResult(text, 3) && KnownWord(text))
  }

  function Taken(o: Option<string>): set<string> { if o.Some? then {o.value} else {} }

  /** The lossless readings under one single-byte encoding. */
  function Interpretations(codecs: Codecs, windows: bool, span: string): set<string> {
    var bytes := Reversible(codecs, windows, span);
    if bytes.None? then {}
    else set text | text in Taken(codecs.utf8(bytes.value)) + Taken(codecs.korean(bytes.value)) && Reads(codecs, bytes.value, text)
  }

  function Candidates(codecs: Codecs, windows: bool, span: string): set<string> {
    var bytes := Reversible(codecs, windows, span);
    if bytes.None? then {}
    else set text | text in Taken(codecs.utf8(bytes.value)) + Taken(codecs.korean(bytes.value)) && Convinces(codecs, span, bytes.value, text)
  }

  function AllInterpretations(codecs: Codecs, span: string): set<string> {
    Interpretations(codecs, false, span) + Interpretations(codecs, true, span)
  }

  function AllCandidates(codecs: Codecs, span: string): set<string> {
    Candidates(codecs, false, span) + Candidates(codecs, true, span)
  }

  /** Does the span read in one single way, and convincingly, as `text`? */
  predicate Repairs(codecs: Codecs, span: string, text: string) {
    NonAscii(span) >= 4 && AllInterpretations(codecs, span) == {text} && AllCandidates(codecs, span) == {text}
  }

  ghost function Repaired(codecs: Codecs, span: string): string {
    if text :| Repairs(codecs, span, text) then text else span
  }

  lemma RepairedIs(codecs: Codecs, span: string, text: string)
    requires Repairs(codecs, span, text)
    ensures Repaired(codecs, span) == text
  {
    var other := Repaired(codecs, span);
    assert Repairs(codecs, span, other);
    assert other in AllCandidates(codecs, span);
  }

  method RepairSpan(codecs: Codecs, span: string) returns (result: string)
    ensures result == Repaired(codecs, span)
  {
    if NonAscii(span) < 4 {
      return span;
    }
    var candidates, interpretations := {}, {};
    for turn := 0 to 2
      invariant turn >= 1 ==> Candidates(codecs, false, span) <= candidates && Interpretations(codecs, false, span) <= interpretations
      invariant turn == 0 ==> candidates == {} && interpretations == {}
      invariant turn == 1 ==> candidates == Candidates(codecs, false, span) && interpretations == Interpretations(codecs, false, span)
      invariant turn == 2 ==> candidates == AllCandidates(codecs, span) && interpretations == AllInterpretations(codecs, span)
    {
      var windows := turn == 1;
      var bytes := Reversible(codecs, windows, span);
      if bytes.Some? {
        var read, convincing := Readings(codecs, span, bytes.value);
        interpretations, candidates := interpretations + read, candidates + convincing;
      }
    }
    if |candidates| == 1 && |interpretations| == 1 {
      var text :| text in candidates;
      OnlyOne(candidates, text);
      CandidatesRead(codecs, span);
      OnlyOne(interpretations, text);
      RepairedIs(codecs, span, text);
      return text;
    }
    NoneRepairs(codecs, span);
    return span;
  }

  lemma NoneRepairs(codecs: Codecs, span: string)
    requires |AllCandidates(codecs, span)| != 1 || |AllInterpretations(codecs, span)| != 1
    ensures Repaired(codecs, span) == span
  {
    forall text ensures !Repairs(codecs, span, text) {
      var one := {text};
      assert |one| == 1;
    }
  }

  lemma OnlyOne(all: set<string>, text: string)
    requires |all| == 1 && text in all
    ensures all == {text}
  {
    var rest := all - {text};
    assert all == rest + {text};
    assert |rest| == 0;
  }

  /** Evidence is lossless: a convincing reading is an interpretation. */
  lemma CandidatesRead(codecs: Codecs, span: string)
    ensures AllCandidates(codecs, span) <= AllInterpretations(codecs, span)
  {
  }

  method Readings(codecs: Codecs, span: string, bytes: seq<Byte>) returns (read: set<string>, convincing: set<string>)
    ensures read == set text | text in Taken(codecs.utf8(bytes)) + Taken(codecs.korean(bytes)) && Reads(codecs, bytes, text)
    ensures convincing == set text | text in Taken(codecs.utf8(bytes)) + Taken(codecs.korean(bytes)) && Convinces(codecs, span, bytes, text)
  {
    read, convincing := {}, {};
    var decoded := codecs.utf8(bytes);
    if decoded.Some? {
      read := read + {decoded.value};
      var korean := CheckKorean(decoded.value, 2);
      if korean {
        convincing := convincing + {decoded.value};
      }
    }
    var legacy := codecs.korean(bytes);
    if legacy.Some? && codecs.encode(legacy.value) == Some(bytes) {
      read := read + {legacy.value};
      var korean := CheckKorean(legacy.value, 3);
      if NonAscii(span) >= 6 && Artifacts(codecs, span) && korean && KnownWord(legacy.value) {
        convincing := convincing + {legacy.value};
      }
    }
  }

  // ---------------------------------------------------------------- what a repair is

  /** A span is kept, or becomes ASCII and Hangul syllables; then the bytes behind it read losslessly in
      no other way, and the span can be recovered from the repaired text's bytes. */
  lemma RepairIsReversible(codecs: Codecs, span: string)
    ensures var text := Repaired(codecs, span);
            text != span ==>
              && KoreanText(text) && Syllables(text) >= 2
              && (exists windows, bytes :: Reversible(codecs, windows, span) == Some(bytes) && Reads(codecs, bytes, text))
              && (forall windows, bytes, other :: Reversible(codecs, windows, span) == Some(bytes) && Reads(codecs, bytes, other) ==> other == text)
  {
    var text := Repaired(codecs, span);
    if text != span {
      assert Repairs(codecs, span, text);
      assert text in AllCandidates(codecs, span) && text in AllInterpretations(codecs, span);
      forall windows, bytes, other | Reversible(codecs, windows, span) == Some(bytes) && Reads(codecs, bytes, other)
        ensures other == text
      {
        assert other in Interpretations(codecs, windows, span);
        assert other in AllInterpretations(codecs, span);
      }
      if text in Interpretations(codecs, false, span) {
        assert Reads(codecs, Reversible(codecs, false, span).value, text);
      } else {
        assert Reads(codecs, Reversible(codecs, true, span).value, text);
      }
    }
  }

  lemma {:induction false} AsciiCount(span: string)
    requires AsciiName(span)
    ensures NonAscii(span) == 0
    decreases |span|
  {
    if span != "" {
      AsciiCount(span[1..]);
    }
  }

  lemma AsciiKept(codecs: Codecs, span: string)
    requires AsciiName(span)
    ensures Repaired(codecs, span) == span
  {
    AsciiCount(span);
  }

  // ---------------------------------------------------------------- the whole name

  /** The characters that may belong to a span, as a function value. */
  type Class = char -> bool

  type Repair = string -> string

  predicate AllSingle(single: Class, text: string) { forall i :: 0 <= i < |text| ==> single(text[i]) }

  predicate Singles(single: Class, text: string, start: nat, end: nat)
    requires end <= |text|
  {
    forall i :: start <= i < end ==> single(text[i])
  }

  /** The end of the span of single-byte characters at the start. */
  function SpanEnd(single: Class, text: string): (n: nat)
    ensures n <= |text| && AllSingle(single, text[..n]) && (n < |text| ==> !single(text[n]))
  {
    if text == "" || !single(text[0]) then 0
    else
      var n := SpanEnd(single, text[1..]);
      assert forall i :: 0 < i < n + 1 ==> text[i] == text[1..][..n][i - 1];
      n + 1
  }

  lemma {:induction false} SpanEndIs(single: Class, text: string, n: nat)
    requires n <= |text| && AllSingle(single, text[..n]) && (n < |text| ==> !single(text[n]))
    ensures SpanEnd(single, text) == n
    decreases n
  {
    if n > 0 {
      assert text[..n][0] == text[0];
      assert text[1..][..n - 1] == text[..n][1..];
      SpanEndIs(single, text[1..], n - 1);
    }
  }

  /** Every maximal span repaired, every other character as it is. */
  function Target(repair: Repair, single: Class, text: string): string
    decreases |text|
  {
    var n := SpanEnd(single, text);
    if n == |text| then repair(text)
    else repair(text[..n]) + [text[n]] + Target(repair, single, text[n + 1..])
  }

  ghost function Repairing(codecs: Codecs): Repair { span => Repaired(codecs, span) }

  /** A span is kept, as every ASCII one is, or becomes ASCII and Hangul syllables. */
  ghost predicate Faithful(repair: Repair) {
    forall span :: (repair(span) == span || KoreanText(repair(span))) && (AsciiName(span) ==> repair(span) == span)
  }

  lemma RepairingIsFaithful(codecs: Codecs)
    ensures Faithful(Repairing(codecs))
  {
    forall span ensures (Repaired(codecs, span) == span || KoreanText(Repaired(codecs, span))) && (AsciiName(span) ==> Repaired(codecs, span) == span) {
      RepairIsReversible(codecs, span);
      if AsciiName(span) { AsciiKept(codecs, span); }
    }
  }

  ghost function FilenameTarget(codecs: Codecs, name: string): string {
    if AsciiName(name) || UnsafeName(name) then name else codecs.nfc(Target(Repairing(codecs), SingleByte, codecs.nfc(name)))
  }

  lemma TargetAt(repair: Repair, single: Class, text: string, start: nat, end: nat)
    requires start <= end <= |text| && Singles(single, text, start, end) && (end < |text| ==> !single(text[end]))
    ensures Target(repair, single, text[start..]) == repair(text[start..end])
              + if end == |text| then "" else [text[end]] + Target(repair, single, text[end + 1..])
  {
    var rest := text[start..];
    assert rest[..end - start] == text[start..end];
    SpanEndIs(single, rest, end - start);
    if end < |text| {
      assert rest[end - start] == text[end] && rest[end - start + 1..] == text[end + 1..];
    } else {
      assert rest == text[start..end];
    }
  }

  lemma AfterSpan(repair: Repair, single: Class, text: string, start: nat, end: nat, done: string)
    requires start <= end < |text| && Singles(single, text, start, end) && !single(text[end])
    ensures done + repair(text[start..end]) + [text[end]] + Target(repair, single, text[end + 1..])
            == done + Target(repair, single, text[start..])
  {
    TargetAt(repair, single, text, start, end);
  }

  lemma LastSpan(repair: Repair, single: Class, text: string, start: nat, done: string)
    requires start <= |text| && Singles(single, text, start, |text|)
    ensures done + repair(text[start..]) == done + Target(repair, single, text[start..])
  {
    TargetAt(repair, single, text, start, |text|);
    assert text[start..|text|] == text[start..];
  }

  lemma OneMore(single: Class, text: string, start: nat, end: nat)
    requires start <= end < |text| && Singles(single, text, start, end) && single(text[end])
    ensures Singles(single, text, start, end + 1)
  {
  }

  method Append(codecs: Codecs, done: string, span: string) returns (longer: string)
    ensures longer == done + Repairing(codecs)(span)
  {
    var repaired := RepairSpan(codecs, span);
    longer := done + repaired;
  }

  /** Spans up to `start` are repaired; since then only span characters were read. */
  ghost predicate Midway(repair: Repair, single: Class, text: string, start: nat, index: nat, done: string) {
    && start <= index <= |text| && Singles(single, text, start, index)
    && done + Target(repair, single, text[start..]) == Target(repair, single, text)
  }

  method Step(codecs: Codecs, ghost repair: Repair, single: Class, text: string, start: nat, index: nat, done: string)
    returns (start': nat, done': string)
    requires repair == Repairing(codecs) && index < |text| && Midway(repair, single, text, start, index, done)
    ensures Midway(repair, single, text, start', index + 1, done')
  {
    if !single(text[index]) {
      AfterSpan(repair, single, text, start, index, done);
      done' := Append(codecs, done, text[start..index]);
      done' := done' + [text[index]];
      start' := index + 1;
    } else {
      OneMore(single, text, start, index);
      start', done' := start, done;
    }
  }

  method RepairSpans(codecs: Codecs, ghost repair: Repair, single: Class, canonical: string) returns (target: string)
    requires repair == Repairing(codecs)
    ensures target == Target(repair, single, canonical)
  {
    var start: nat := 0;
    target := "";
    assert canonical[0..] == canonical;
    for index := 0 to |canonical|
      invariant Midway(repair, single, canonical, start, index, target)
    {
      start, target := Step(codecs, repair, single, canonical, start, index, target);
    }
    LastSpan(repair, single, canonical, start, target);
    target := Append(codecs, target, canonical[start..]);
  }

  method RepairName(codecs: Codecs, name: string) returns (result: string)
    ensures result == FilenameTarget(codecs, name)
  {
    if AsciiName(name) || UnsafeName(name) {
      return name;
    }
    var target := RepairSpans(codecs, Repairing(codecs), SingleByte, codecs.nfc(name));
    result := codecs.nfc(target);
  }

  // ---------------------------------------------------------------- a second pass changes nothing

  lemma SpecialIsLow()
    ensures forall i :: 0 <= i < |SPECIAL| ==> SPECIAL[i] as int < 0x3000
  {
  }

  lemma HangulIsNotSingle(c: char)
    requires Hangul(c)
    ensures !SingleByte(c)
  {
    SpecialIsLow();
  }

  /** Every span is one that a repair leaves as it is. */
  predicate SpansKept(repair: Repair, single: Class, text: string)
    decreases |text|
  {
    var n := SpanEnd(single, text);
    repair(text[..n]) == text[..n] && (n < |text| ==> SpansKept(repair, single, text[n + 1..]))
  }

  lemma {:induction false} KeptIsFixed(repair: Repair, single: Class, text: string)
    requires SpansKept(repair, single, text)
    ensures Target(repair, single, text) == text
    decreases |text|
  {
    var n := SpanEnd(single, text);
    if n < |text| {
      KeptIsFixed(repair, single, text[n + 1..]);
      assert text == text[..n] + [text[n]] + text[n + 1..];
    } else {
      assert text[..n] == text;
    }
  }

  lemma {:induction false} KeptJoin(repair: Repair, single: Class, piece: string, c: char, rest: string)
    requires SpansKept(repair, single, piece) && !single(c) && SpansKept(repair, single, rest)
    ensures SpansKept(repair, single, piece + [c] + rest)
    decreases |piece|
  {
    var text, n := piece + [c] + rest, SpanEnd(single, piece);
    assert text[..n] == piece[..n];
    SpanEndIs(single, text, n);
    if n == |piece| {
      assert piece[..n] == piece && text[n + 1..] == rest;
    } else {
      KeptJoin(repair, single, piece[n + 1..], c, rest);
      assert text[n + 1..] == piece[n + 1..] + [c] + rest;
    }
  }

  predicate SpansAreAscii(single: Class) { forall c :: Hangul(c) ==> !single(c) }

  /** Korean text is ASCII pieces between Hangul syllables. */
  lemma {:induction false} KoreanKept(repair: Repair, single: Class, text: string)
    requires KoreanText(text) && SpansAreAscii(single) && Faithful(repair)
    ensures SpansKept(repair, single, text)
    decreases |text|
  {
    var n := SpanEnd(single, text);
    assert AsciiName(text[..n]) by {
      assert forall i :: 0 <= i < n ==> text[..n][i] == text[i] && single(text[..n][i]);
    }
    if n < |text| {
      KoreanKept(repair, single, text[n + 1..]);
    }
  }

  lemma RepairedKept(repair: Repair, single: Class, span: string)
    requires AllSingle(single, span) && SpansAreAscii(single) && Faithful(repair)
    ensures SpansKept(repair, single, repair(span))
  {
    if repair(span) == span {
      assert span[..|span|] == span;
      SpanEndIs(single, span, |span|);
    } else {
      KoreanKept(repair, single, repair(span));
    }
  }

  /** A pass leaves every span of its own result as it is. */
  lemma {:induction false} TargetKept(repair: Repair, single: Class, text: string)
    requires SpansAreAscii(single) && Faithful(repair)
    ensures SpansKept(repair, single, Target(repair, single, text))
    decreases |text|
  {
    var n := SpanEnd(single, text);
    RepairedKept(repair, single, text[..n]);
    if n == |text| {
      assert text[..n] == text;
    } else {
      TargetKept(repair, single, text[n + 1..]);
      KeptJoin(repair, single, repair(text[..n]), text[n], Target(repair, single, text[n + 1..]));
    }
  }

  // ---------------------------------------------------------------- normalization after a repair

  type Normal = string -> string

  /** Normalizing splits in front of `c`, which composes with nothing before it. */
  predicate Splits(nfc: Normal, x: string, c: char, y: string) { nfc(x + [c] + y) == nfc(x) + nfc([c] + y) }

  /** A part of normal text is normal. */
  predicate Parts(nfc: Normal, x: string, y: string, z: string) { nfc(x + y + z) == x + y + z ==> nfc(y) == y }

  /** A syllable before normal text can only absorb one character of it, a trailing consonant. */
  predicate Absorbs(nfc: Normal, single: Class, c: char, y: string) {
    nfc(y) == y ==>
      || nfc([c] + y) == [c] + y
      || (y != "" && !single(y[0]) && exists d :: Hangul(d) && nfc([c] + y) == [d] + y[1..])
  }

  /** What Normalization Form C of the Unicode Standard Annex #15 guarantees of the characters at hand:
      single-byte characters, ASCII and Hangul syllables are starters that never compose backwards. */
  ghost predicate Normalizes(nfc: Normal, single: Class) {
    && (forall x :: nfc(nfc(x)) == nfc(x))
    && (forall x, c, y :: single(c) || Ascii(c) || Hangul(c) ==> Splits(nfc, x, c, y))
    && (forall x, y, z :: Parts(nfc, x, y, z))
    && (forall c, y :: Hangul(c) ==> Absorbs(nfc, single, c, y))
    && (forall c: char :: Ascii(c) ==> nfc([c]) == [c])
    && nfc("") == ""
  }

  /** There are such functions: normalization may leave everything as it is. */
  lemma IdentityNormalizes(single: Class)
    ensures Normalizes(x => x, single)
  {
    var nfc: Normal := x => x;
    forall x, c, y ensures Splits(nfc, x, c, y) {
      assert x + [c] + y == x + ([c] + y);
    }
    forall x, y, z ensures Parts(nfc, x, y, z) { }
    forall c, y ensures Absorbs(nfc, single, c, y) { }
  }

  /** Text in which some syllables absorbed the character behind them. */
  predicate Contracts(single: Class, u: string, v: string)
    decreases |u|
  {
    if u == "" || v == "" then u == v
    else
      || (u[0] == v[0] && Contracts(single, u[1..], v[1..]))
      || (|u| >= 2 && Hangul(u[0]) && !single(u[1]) && Hangul(v[0]) && Contracts(single, u[2..], v[1..]))
  }

  lemma {:induction false} ContractsSame(single: Class, u: string)
    ensures Contracts(single, u, u)
    decreases |u|
  {
    if u != "" {
      ContractsSame(single, u[1..]);
    }
  }

  lemma {:induction false} ContractsJoin(single: Class, u: string, v: string, x: string, y: string)
    requires Contracts(single, u, v) && Contracts(single, x, y)
    ensures Contracts(single, u + x, v + y)
    decreases |u|
  {
    if u == "" {
      assert u + x == x && v + y == y;
    } else {
      assert (u + x)[1..] == u[1..] + x && (v + y)[1..] == v[1..] + y;
      if u[0] == v[0] && Contracts(single, u[1..], v[1..]) {
        ContractsJoin(single, u[1..], v[1..], x, y);
      } else {
        assert (u + x)[2..] == u[2..] + x;
        ContractsJoin(single, u[2..], v[1..], x, y);
      }
    }
  }

  /** A contraction leaves the first span as it is. */
  lemma {:induction false} ContractsSpan(single: Class, u: string, v: string)
    requires Contracts(single, u, v) && SpansAreAscii(single)
    ensures var n := SpanEnd(single, u);
            n <= |v| && SpanEnd(single, v) == n && v[..n] == u[..n] && Contracts(single, u[n..], v[n..])
    decreases |u|
  {
    if u != "" && single(u[0]) {
      ContractsSpan(single, u[1..], v[1..]);
      var n := SpanEnd(single, u);
      assert u[1..][n - 1..] == u[n..] && v[1..][n - 1..] == v[n..];
      assert v[..n] == [v[0]] + v[1..][..n - 1] && u[..n] == [u[0]] + u[1..][..n - 1];
    }
  }

  /** What a repair keeps it also keeps after a contraction: no span changes. */
  lemma {:induction false} ContractsKept(repair: Repair, single: Class, u: string, v: string)
    requires Contracts(single, u, v) && SpansAreAscii(single) && repair("") == "" && SpansKept(repair, single, u)
    ensures SpansKept(repair, single, v)
    decreases |u|
  {
    var n := SpanEnd(single, u);
    ContractsSpan(single, u, v);
    if n < |u| {
      var x, y := u[n..], v[n..];
      assert u[n + 1..] == x[1..] && v[n + 1..] == y[1..];
      if x[0] == y[0] && Contracts(single, x[1..], y[1..]) {
        ContractsKept(repair, single, x[1..], y[1..]);
      } else {
        assert x[1..][SpanEnd(single, x[1..]) + 1..] == x[2..];
        ContractsKept(repair, single, x[2..], y[1..]);
      }
    }
  }

  function Last(text: string): char
    requires text != ""
  {
    text[|text| - 1]
  }

  /** A repair that ends in an ASCII character ends as its span does. */
  predicate EndsAlike(repair: Repair, span: string) {
    repair(span) != span ==>
      && repair(span) != "" && span != ""
      && (Ascii(Last(repair(span))) ==> Last(repair(span)) == Last(span))
  }

  lemma {:induction false} KoreanIsNormal(nfc: Normal, single: Class, text: string)
    requires Normalizes(nfc, single) && KoreanText(text)
    ensures nfc(text) == text
    decreases |text|
  {
    if text != "" {
      var front, c := text[..|text| - 1], Last(text);
      KoreanIsNormal(nfc, single, front);
      assert Splits(nfc, front, c, "") && front + [c] + "" == text && [c] + "" == [c];
      if Hangul(c) {
        assert Absorbs(nfc, single, c, "");
      }
    }
  }

  /** A repaired span and the characters behind it, up to the next span, normalize to a contraction. */
  lemma PieceContracts(nfc: Normal, single: Class, repair: Repair, span: string, behind: string)
    requires Normalizes(nfc, single) && Faithful(repair) && EndsAlike(repair, span)
    requires nfc(span + behind) == span + behind && (behind != "" ==> !single(behind[0]))
    ensures Contracts(single, repair(span) + behind, nfc(repair(span) + behind))
  {
    ContractsSame(single, span + behind);
    if repair(span) != span {
      KoreanContracts(nfc, single, span, repair(span), behind);
    }
  }

  lemma KoreanContracts(nfc: Normal, single: Class, span: string, text: string, behind: string)
    requires Normalizes(nfc, single) && KoreanText(text) && text != "" && span != ""
    requires Ascii(Last(text)) ==> Last(text) == Last(span)
    requires nfc(span + behind) == span + behind && (behind != "" ==> !single(behind[0]))
    ensures Contracts(single, text + behind, nfc(text + behind))
  {
    var front, c := text[..|text| - 1], Last(text);
    KoreanFront(text);
    KoreanIsNormal(nfc, single, front);
    LastContracts(nfc, single, span, c, behind);
    SplitsAfter(nfc, single, front, c, behind);
    JoinFront(nfc, single, front, c, behind);
  }

  lemma KoreanFront(text: string)
    requires KoreanText(text) && text != ""
    ensures KoreanText(text[..|text| - 1]) && (Hangul(Last(text)) || Ascii(Last(text))) && text == text[..|text| - 1] + [Last(text)]
  {
  }

  lemma SplitsAfter(nfc: Normal, single: Class, front: string, c: char, behind: string)
    requires Normalizes(nfc, single) && (Hangul(c) || Ascii(c))
    ensures Splits(nfc, front, c, behind)
  {
  }

  lemma JoinFront(nfc: Normal, single: Class, front: string, c: char, behind: string)
    requires nfc(front) == front && Splits(nfc, front, c, behind) && Contracts(single, [c] + behind, nfc([c] + behind))
    ensures Contracts(single, front + [c] + behind, nfc(front + [c] + behind))
  {
    ContractsSame(single, front);
    ContractsJoin(single, front, front, [c] + behind, nfc([c] + behind));
    assert front + ([c] + behind) == front + [c] + behind;
  }

  lemma LastContracts(nfc: Normal, single: Class, span: string, c: char, behind: string)
    requires Normalizes(nfc, single) && span != "" && (Hangul(c) || c == Last(span))
    requires nfc(span + behind) == span + behind && (behind != "" ==> !single(behind[0]))
    ensures Contracts(single, [c] + behind, nfc([c] + behind))
  {
    ContractsSame(single, [c] + behind);
    if Hangul(c) {
      assert span + behind + "" == span + behind;
      assert Parts(nfc, span, behind, "");
      assert Absorbs(nfc, single, c, behind);
      if nfc([c] + behind) != [c] + behind {
        ContractsSame(single, behind[1..]);
        assert ([c] + behind)[2..] == behind[1..];
      }
    } else {
      var front := span[..|span| - 1];
      assert front + ([c] + behind) + "" == span + behind;
      assert Parts(nfc, front, [c] + behind, "");
    }
  }

  // ---------------------------------------------------------------- the whole name

  /** The end of the characters at the start that belong to no span. */
  function GapEnd(single: Class, text: string): (n: nat)
    ensures n <= |text| && (n < |text| ==> single(text[n])) && (forall i :: 0 <= i < n ==> !single(text[i]))
  {
    if text == "" || single(text[0]) then 0 else GapEnd(single, text[1..]) + 1
  }

  lemma {:induction false} TargetOverGap(repair: Repair, single: Class, text: string)
    requires repair("") == ""
    ensures var k := GapEnd(single, text);
            Target(repair, single, text) == text[..k] + Target(repair, single, text[k..])
    decreases |text|
  {
    var k := GapEnd(single, text);
    if k == 0 {
      assert text[..0] == "" && text[0..] == text;
    } else {
      TargetOverGap(repair, single, text[1..]);
      TargetOverOne(repair, single, text);
      SliceOne(text, k);
      Regroup("", [text[0]], text[1..][..k - 1], Target(repair, single, text[k..]));
    }
  }

  lemma TargetOverOne(repair: Repair, single: Class, text: string)
    requires repair("") == "" && text != "" && !single(text[0])
    ensures Target(repair, single, text) == [text[0]] + Target(repair, single, text[1..])
  {
    assert text[..0] == "" && text[0 + 1..] == text[1..];
  }

  lemma SliceOne(text: string, k: nat)
    requires 0 < k <= |text|
    ensures text[..k] == [text[0]] + text[1..][..k - 1] && text[1..][k - 1..] == text[k..]
  {
  }

  lemma TargetOverPiece(repair: Repair, single: Class, text: string, n: nat, k: nat)
    requires repair("") == "" && n == SpanEnd(single, text) && k == GapEnd(single, text[n..])
    ensures Target(repair, single, text) == repair(text[..n]) + text[n..n + k] + Target(repair, single, text[n + k..])
  {
    if n == |text| {
      assert text[..n] == text && text[n..n + k] == "" && text[n + k..] == "";
    } else {
      var tail := text[n + 1..];
      TargetOverGap(repair, single, tail);
      assert text[n..][1..] == tail && text[n..][0] == text[n] && k == GapEnd(single, tail) + 1;
      SliceGap(text, n, k);
      Regroup(repair(text[..n]), [text[n]], tail[..k - 1], Target(repair, single, text[n + k..]));
    }
  }

  lemma SliceGap(text: string, n: nat, k: nat)
    requires k > 0 && n + k <= |text|
    ensures var tail := text[n + 1..]; text[n..n + k] == [text[n]] + tail[..k - 1] && tail[k - 1..] == text[n + k..]
  {
  }

  lemma Regroup(a: string, b: string, c: string, d: string)
    ensures a + b + (c + d) == a + (b + c) + d
  {
  }

  lemma StartsAtBoundary(repair: Repair, single: Class, text: string)
    requires text != "" && single(text[0]) && Faithful(repair) && forall span :: EndsAlike(repair, span)
    ensures var target := Target(repair, single, text);
            target != "" && (single(target[0]) || Ascii(target[0]) || Hangul(target[0]))
  {
    var n := SpanEnd(single, text);
    var span := text[..n];
    assert n > 0 && EndsAlike(repair, span);
    if n == |text| { assert span == text; }
    assert repair(span) != "" && repair(span)[0] == Target(repair, single, text)[0];
    if repair(span) == span {
      assert span[0] == text[0];
    } else {
      assert KoreanText(repair(span));
    }
  }

  lemma SplitAt(nfc: Normal, single: Class, x: string, y: string)
    requires Normalizes(nfc, single) && y != "" && (single(y[0]) || Ascii(y[0]) || Hangul(y[0]))
    ensures nfc(x + y) == nfc(x) + nfc(y)
  {
    assert Splits(nfc, x, y[0], y[1..]);
    assert [y[0]] + y[1..] == y && x + [y[0]] + y[1..] == x + y;
  }

  /** The target of normal text normalizes to a contraction of itself. */
  lemma {:induction false} TargetContracts(nfc: Normal, single: Class, repair: Repair, text: string)
    requires Normalizes(nfc, single) && Faithful(repair) && (forall span :: EndsAlike(repair, span)) && nfc(text) == text
    ensures Contracts(single, Target(repair, single, text), nfc(Target(repair, single, text)))
    decreases |text|
  {
    assert AsciiName("") && repair("") == "";
    var n := SpanEnd(single, text);
    var k := GapEnd(single, text[n..]);
    if n + k == |text| {
      LastPiece(nfc, single, repair, text, n, k);
    } else {
      var piece, rest := text[..n + k], text[n + k..];
      NormalParts(nfc, single, text, n + k);
      assert rest[0] == text[n..][k];
      TargetContracts(nfc, single, repair, rest);
      StartsAtBoundary(repair, single, rest);
      FirstPiece(nfc, single, repair, text, n, k);
    }
  }

  lemma NormalParts(nfc: Normal, single: Class, text: string, k: nat)
    requires Normalizes(nfc, single) && nfc(text) == text && k <= |text|
    ensures nfc(text[..k]) == text[..k] && nfc(text[k..]) == text[k..]
  {
    assert "" + text[..k] + text[k..] == text && text[..k] + text[k..] + "" == text;
    assert Parts(nfc, "", text[..k], text[k..]) && Parts(nfc, text[..k], text[k..], "");
  }

  lemma LastPiece(nfc: Normal, single: Class, repair: Repair, text: string, n: nat, k: nat)
    requires Normalizes(nfc, single) && Faithful(repair) && (forall span :: EndsAlike(repair, span)) && nfc(text) == text
    requires repair("") == "" && n == SpanEnd(single, text) && k == GapEnd(single, text[n..]) && n + k == |text|
    ensures Contracts(single, Target(repair, single, text), nfc(Target(repair, single, text)))
  {
    var span, behind := text[..n], text[n..n + k];
    TargetOverPiece(repair, single, text, n, k);
    GapParts(single, text, n, k);
    assert text[..n + k] == text && text[n + k..] == "" && Target(repair, single, "") == "";
    assert EndsAlike(repair, span);
    PieceContracts(nfc, single, repair, span, behind);
    assert repair(span) + behind + "" == repair(span) + behind;
  }

  lemma GapParts(single: Class, text: string, n: nat, k: nat)
    requires n <= |text| && k == GapEnd(single, text[n..])
    ensures n + k <= |text| && text[..n] + text[n..n + k] == text[..n + k]
    ensures text[n..n + k] != "" ==> !single(text[n..n + k][0])
  {
  }

  lemma FirstPiece(nfc: Normal, single: Class, repair: Repair, text: string, n: nat, k: nat)
    requires Normalizes(nfc, single) && Faithful(repair) && (forall span :: EndsAlike(repair, span))
    requires repair("") == "" && n == SpanEnd(single, text) && k == GapEnd(single, text[n..]) && n + k < |text|
    requires nfc(text[..n + k]) == text[..n + k]
    requires var target := Target(repair, single, text[n + k..]);
             && Contracts(single, target, nfc(target))
             && target != "" && (single(target[0]) || Ascii(target[0]) || Hangul(target[0]))
    ensures Contracts(single, Target(repair, single, text), nfc(Target(repair, single, text)))
  {
    var span, behind, target := text[..n], text[n..n + k], Target(repair, single, text[n + k..]);
    TargetOverPiece(repair, single, text, n, k);
    GapParts(single, text, n, k);
    assert EndsAlike(repair, span);
    PieceContracts(nfc, single, repair, span, behind);
    SplitAt(nfc, single, repair(span) + behind, target);
    ContractsJoin(single, repair(span) + behind, nfc(repair(span) + behind), target, nfc(target));
  }

  // ---------------------------------------------------------------- a second pass changes nothing, whatever normalization does

  /** Decoded text that ends in ASCII ends in its last byte, as in UTF-8 and EUC-KR. */
  ghost predicate AsciiEnds(codecs: Codecs) { forall bytes, text :: EndsInByte(codecs, bytes, text) }

  predicate EndsInByte(codecs: Codecs, bytes: seq<Byte>, text: string) {
    (codecs.utf8(bytes) == Some(text) || codecs.korean(bytes) == Some(text)) && text != "" && Ascii(Last(text)) ==>
      bytes != [] && bytes[|bytes| - 1] == Last(text) as int
  }

  lemma {:induction false} BytesLast(windows: bool, span: string)
    requires BytesOf(windows, span).Some?
    ensures |BytesOf(windows, span).value| == |span|
    ensures span != "" ==> ByteOf(windows, Last(span)) == Some(BytesOf(windows, span).value[|span| - 1])
    decreases |span|
  {
    if span != "" {
      BytesLast(windows, span[1..]);
    }
  }

  lemma RepairEndsAlike(codecs: Codecs, span: string)
    requires AsciiEnds(codecs)
    ensures EndsAlike(Repairing(codecs), span)
  {
    var text := Repaired(codecs, span);
    if text != span {
      if span == "" { AsciiKept(codecs, span); }
      RepairIsReversible(codecs, span);
      var windows, bytes :| Reversible(codecs, windows, span) == Some(bytes) && Reads(codecs, bytes, text);
      ReadingEndsAlike(codecs, windows, span, bytes, text);
    }
  }

  lemma ReadingEndsAlike(codecs: Codecs, windows: bool, span: string, bytes: seq<Byte>, text: string)
    requires AsciiEnds(codecs) && BytesOf(windows, span) == Some(bytes) && Reads(codecs, bytes, text) && text != "" && span != ""
    ensures Ascii(Last(text)) ==> Last(text) == Last(span)
  {
    BytesLast(windows, span);
    assert EndsInByte(codecs, bytes, text);
    LowByte(windows, Last(span));
  }

  lemma LowByte(windows: bool, c: char)
    ensures ByteOf(windows, c).Some? && ByteOf(windows, c).value < 0x80 ==> c as int == ByteOf(windows, c).value
  {
  }

  /** For every name: repairing the result again changes nothing. */
  lemma RepairIsIdempotent(codecs: Codecs, name: string)
    requires Normalizes(codecs.nfc, SingleByte) && AsciiEnds(codecs)
    ensures FilenameTarget(codecs, FilenameTarget(codecs, name)) == FilenameTarget(codecs, name)
  {
    var canonical := codecs.nfc(name);
    var repair := Repairing(codecs);
    var target := Target(repair, SingleByte, canonical);
    var result := codecs.nfc(target);
    assert codecs.nfc(canonical) == canonical && codecs.nfc(result) == result;
    forall c | Hangul(c) ensures !SingleByte(c) { HangulIsNotSingle(c); }
    RepairingIsFaithful(codecs);
    forall span ensures EndsAlike(repair, span) { RepairEndsAlike(codecs, span); }
    TargetContracts(codecs.nfc, SingleByte, repair, canonical);
    TargetKept(repair, SingleByte, canonical);
    AsciiKept(codecs, "");
    ContractsKept(repair, SingleByte, target, result);
    KeptIsFixed(repair, SingleByte, result);
  }

  /** For any normalization: the same of a name whose repaired text is normal already. */
  lemma NormalTargetIsFixed(codecs: Codecs, name: string)
    requires var target := Target(Repairing(codecs), SingleByte, codecs.nfc(name)); codecs.nfc(target) == target
    ensures FilenameTarget(codecs, FilenameTarget(codecs, name)) == FilenameTarget(codecs, name)
  {
    forall c | Hangul(c) ensures !SingleByte(c) { HangulIsNotSingle(c); }
    RepairingIsFaithful(codecs);
    TargetKept(Repairing(codecs), SingleByte, codecs.nfc(name));
    KeptIsFixed(Repairing(codecs), SingleByte, Target(Repairing(codecs), SingleByte, codecs.nfc(name)));
  }

  // ---------------------------------------------------------------- what a pass may change

  /** Piece by piece: each maximal span as it was or Korean text, each other character as it was. */
  ghost predicate Carried(repair: Repair, single: Class, text: string, result: string)
    decreases |text|
  {
    var n := SpanEnd(single, text);
    if n == |text| then result == text || KoreanText(result)
    else exists k :: 0 <= k < |result| && result[k] == text[n] && (result[..k] == text[..n] || KoreanText(result[..k]))
                     && Carried(repair, single, text[n + 1..], result[k + 1..])
  }

  /** Each maximal span is kept or becomes ASCII and Hangul; all other characters keep value and order. */
  lemma {:induction false} OnlySpansChange(repair: Repair, single: Class, text: string)
    requires Faithful(repair)
    ensures Carried(repair, single, text, Target(repair, single, text))
    decreases |text|
  {
    var n := SpanEnd(single, text);
    if n == |text| {
      assert text[..n] == text;
    } else {
      OnlySpansChange(repair, single, text[n + 1..]);
      var piece, rest := repair(text[..n]), Target(repair, single, text[n + 1..]);
      var result := piece + [text[n]] + rest;
      assert result[|piece|] == text[n] && result[..|piece|] == piece && result[|piece| + 1..] == rest;
    }
  }

  /** The same of a whole name, before the final normalization. */
  lemma NameKeepsTheRest(codecs: Codecs, canonical: string)
    ensures Carried(Repairing(codecs), SingleByte, canonical, Target(Repairing(codecs), SingleByte, canonical))
  {
    RepairingIsFaithful(codecs);
    OnlySpansChange(Repairing(codecs), SingleByte, canonical);
  }
}
