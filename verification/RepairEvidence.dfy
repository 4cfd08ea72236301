/** When a span of a name is repaired, and which names are left alone, said of codes, positions and bytes. */
module RepairEvidence {
  import opened Paths
  import opened FilenameRepair

  /** The bytes that the span stands for: the codes of its characters, or those of windows-1252 if the bytes
      decode to the span again. */
  predicate Behind(codecs: Codecs, span: string, bytes: seq<Byte>) {
    && |bytes| == |span|
    && ((forall i :: 0 <= i < |span| ==> span[i] as int == bytes[i])
        || ((forall i :: 0 <= i < |span| ==> WindowsByte(span[i]) == Some(bytes[i])) && codecs.windows(bytes) == Some(span)))
  }

  function Foreign(text: string): set<int> { set i | 0 <= i < |text| && text[i] as int >= 0x80 }

  function Korean(text: string): set<int> { set i | 0 <= i < |text| && 0xac00 <= text[i] as int <= 0xd7a3 }

  /** Hangul and printable ASCII without slashes, with so many syllables. */
  predicate AtLeast(text: string, minimum: nat) {
    && |Korean(text)| >= minimum
    && forall i :: 0 <= i < |text| && i !in Korean(text) ==> 0x20 <= text[i] as int < 0x7f && text[i] != '/' && text[i] != '\\'
  }

  predicate WordAt(text: string, word: string, i: nat) { i + |word| <= |text| && text[i..i + |word|] == word }

  ghost predicate Contains(text: string, word: string) { exists i: nat :: WordAt(text, word, i) }

  /** Valid UTF-8 with two syllables; or EUC-KR that encodes to the same bytes, of six foreign characters
      some of which is no letter, with three syllables and a word that names of files have. */
  ghost predicate Evidence(codecs: Codecs, span: string, bytes: seq<Byte>, text: string) {
    || (codecs.utf8(bytes) == Some(text) && AtLeast(text, 2))
    || (codecs.korean(bytes) == Some(text) && codecs.encode(text) == Some(bytes) && AtLeast(text, 3)
        && |Foreign(span)| >= 6 && (exists i :: i in Foreign(span) && NoLetter(codecs, span[i]))
        && exists w :: w in WORDS && Contains(text, w))
  }

  predicate NoLetter(codecs: Codecs, c: char) {
    || c in "\U{a4}\U{a6}\U{a7}\U{a8}\U{d7}\U{f7}" || '\U{aa}' <= c <= '\U{bf}'
    || !codecs.alphabetic(c)
  }

  lemma {:induction false} NonAsciiSnoc(span: string, c: char)
    ensures NonAscii(span + [c]) == NonAscii(span) + if Ascii(c) then 0 else 1
    decreases |span|
  {
    if span != "" {
      assert (span + [c])[1..] == span[1..] + [c];
      NonAsciiSnoc(span[1..], c);
    }
  }

  lemma {:induction false} NonAsciiCounts(span: string)
    ensures NonAscii(span) == |Foreign(span)|
    decreases |span|
  {
    if span == "" {
      assert Foreign(span) == {};
    } else {
      var n := |span| - 1;
      NonAsciiCounts(span[..n]);
      NonAsciiSnoc(span[..n], span[n]);
      assert span == span[..n] + [span[n]];
      assert Foreign(span) == Foreign(span[..n]) + if Ascii(span[n]) then {} else {n};
    }
  }

  lemma {:induction false} SyllablesCount(text: string)
    ensures Syllables(text) == |Korean(text)|
    decreases |text|
  {
    if text != "" {
      var n := |text| - 1;
      SyllablesCount(text[..n]);
      assert Korean(text) == Korean(text[..n]) + if Hangul(text[n]) then {n} else {};
    } else {
      assert Korean(text) == {};
    }
  }

  lemma KoreanResultIs(text: string, minimum: nat)
    ensures KoreanResult(text, minimum) <==> AtLeast(text, minimum)
  {
    SyllablesCount(text);
    forall i | 0 <= i < |text| ensures i in Korean(text) <==> Hangul(text[i]) { }
  }

  lemma {:induction false} HoldsIs(text: string, word: string)
    ensures Holds(text, word) <==> Contains(text, word)
    decreases |text|
  {
    if word <= text {
      assert WordAt(text, word, 0);
    } else if text != "" {
      HoldsIs(text[1..], word);
      if i: nat :| WordAt(text[1..], word, i) {
        assert text[1..][i..i + |word|] == text[i + 1..i + 1 + |word|];
        assert WordAt(text, word, i + 1);
      }
      if i: nat :| WordAt(text, word, i) {
        assert i > 0;
        assert text[1..][i - 1..i - 1 + |word|] == text[i..i + |word|];
        assert WordAt(text[1..], word, i - 1);
      }
    }
  }

  lemma {:induction false} BytesOfIs(windows: bool, span: string, bytes: seq<Byte>)
    ensures BytesOf(windows, span) == Some(bytes)
            <==> |bytes| == |span| && forall i :: 0 <= i < |span| ==> ByteOf(windows, span[i]) == Some(bytes[i])
    decreases |span|
  {
    if span != "" && bytes != [] {
      BytesOfIs(windows, span[1..], bytes[1..]);
      assert bytes == [bytes[0]] + bytes[1..];
    }
  }

  lemma LatinIs(codecs: Codecs, span: string, bytes: seq<Byte>)
    ensures Reversible(codecs, false, span) == Some(bytes)
            <==> |bytes| == |span| && forall i :: 0 <= i < |span| ==> span[i] as int == bytes[i]
  {
    BytesOfIs(false, span, bytes);
    if |bytes| == |span| {
      forall i | 0 <= i < |span| ensures ByteOf(false, span[i]) == Some(bytes[i]) <==> span[i] as int == bytes[i] { }
    }
  }

  lemma WindowsIs(codecs: Codecs, span: string, bytes: seq<Byte>)
    ensures Reversible(codecs, true, span) == Some(bytes)
            <==> && |bytes| == |span| && (forall i :: 0 <= i < |span| ==> WindowsByte(span[i]) == Some(bytes[i]))
                 && codecs.windows(bytes) == Some(span)
  {
    BytesOfIs(true, span, bytes);
    if |bytes| == |span| {
      forall i | 0 <= i < |span| ensures ByteOf(true, span[i]) == WindowsByte(span[i]) { }
    }
  }

  lemma BehindIs(codecs: Codecs, span: string, bytes: seq<Byte>)
    ensures Behind(codecs, span, bytes) <==> Reversible(codecs, false, span) == Some(bytes) || Reversible(codecs, true, span) == Some(bytes)
  {
    LatinIs(codecs, span, bytes);
    WindowsIs(codecs, span, bytes);
  }

  lemma EvidenceIs(codecs: Codecs, span: string, bytes: seq<Byte>, text: string)
    ensures Evidence(codecs, span, bytes, text) <==> Convinces(codecs, span, bytes, text)
  {
    KoreanResultIs(text, 2);
    KoreanResultIs(text, 3);
    NonAsciiCounts(span);
    forall w | w in WORDS ensures Holds(text, w) <==> Contains(text, w) { HoldsIs(text, w); }
    assert Artifacts(codecs, span) <==> exists i :: i in Foreign(span) && NoLetter(codecs, span[i]);
  }

  lemma CandidatesAre(codecs: Codecs, span: string, text: string)
    ensures text in AllCandidates(codecs, span) <==> exists bytes :: Behind(codecs, span, bytes) && Evidence(codecs, span, bytes, text)
  {
    forall windows | text in Candidates(codecs, windows, span) ensures exists bytes :: Behind(codecs, span, bytes) && Evidence(codecs, span, bytes, text) {
      var bytes := Reversible(codecs, windows, span).value;
      BehindIs(codecs, span, bytes);
      EvidenceIs(codecs, span, bytes, text);
    }
    if bytes :| Behind(codecs, span, bytes) && Evidence(codecs, span, bytes, text) {
      BehindIs(codecs, span, bytes);
      EvidenceIs(codecs, span, bytes, text);
      assert text in Candidates(codecs, false, span) || text in Candidates(codecs, true, span);
    }
  }

  lemma InterpretationsAre(codecs: Codecs, span: string, text: string)
    ensures text in AllInterpretations(codecs, span) <==> exists bytes :: Behind(codecs, span, bytes) && Reads(codecs, bytes, text)
  {
    forall windows | text in Interpretations(codecs, windows, span) ensures exists bytes :: Behind(codecs, span, bytes) && Reads(codecs, bytes, text) {
      BehindIs(codecs, span, Reversible(codecs, windows, span).value);
    }
    if bytes :| Behind(codecs, span, bytes) && Reads(codecs, bytes, text) {
      BehindIs(codecs, span, bytes);
      assert text in Interpretations(codecs, false, span) || text in Interpretations(codecs, true, span);
    }
  }

  lemma SoleReading(codecs: Codecs, span: string, text: string)
    requires text in AllCandidates(codecs, span)
    ensures AllInterpretations(codecs, span) == {text} && AllCandidates(codecs, span) == {text}
            <==> forall bytes, other :: Behind(codecs, span, bytes) && Reads(codecs, bytes, other) ==> other == text
  {
    CandidatesRead(codecs, span);
    if forall bytes, other :: Behind(codecs, span, bytes) && Reads(codecs, bytes, other) ==> other == text {
      forall other | other in AllInterpretations(codecs, span) ensures other == text { InterpretationsAre(codecs, span, other); }
    }
    if AllInterpretations(codecs, span) == {text} {
      forall bytes, other | Behind(codecs, span, bytes) && Reads(codecs, bytes, other) ensures other == text { InterpretationsAre(codecs, span, other); }
    }
  }

  /** A span becomes `text` exactly when it has four foreign characters, some bytes behind it are evidence
      for `text`, and no bytes behind it read losslessly as anything else. */
  lemma RepairsIff(codecs: Codecs, span: string, text: string)
    ensures Repairs(codecs, span, text)
            <==> && |Foreign(span)| >= 4
                 && (exists bytes :: Behind(codecs, span, bytes) && Evidence(codecs, span, bytes, text))
                 && forall bytes, other :: Behind(codecs, span, bytes) && Reads(codecs, bytes, other) ==> other == text
  {
    NonAsciiCounts(span);
    CandidatesAre(codecs, span, text);
    if text in AllCandidates(codecs, span) {
      SoleReading(codecs, span, text);
    }
  }

  /** Names of ASCII alone, and names with a control character, a slash, a backslash or a replacement
      character, stay as they are. */
  lemma NamesLeftAlone(codecs: Codecs, name: string)
    requires || (forall i :: 0 <= i < |name| ==> name[i] as int < 0x80)
             || exists i :: 0 <= i < |name| && (name[i] as int < 0x20 || 0x7f <= name[i] as int <= 0x9f || name[i] in "/\\\U{fffd}")
    ensures FilenameTarget(codecs, name) == name
  {
    if i :| 0 <= i < |name| && (name[i] as int < 0x20 || 0x7f <= name[i] as int <= 0x9f || name[i] in "/\\\U{fffd}") {
      assert Unsafe(name[i]);
    }
  }
}
