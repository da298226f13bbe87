/** A printer for TLS ClientHello records (section 4.1.2 of RFC 8446, section 3 of RFC 6066) and the proof
    that the server-name parser inverts it, on the whole record and on every prefix of it. */
module ClientHello {
  import opened Machine
  import opened HostExtraction

  type Short = b: Bytes | |b| < 0x100
  type Long = b: Bytes | |b| < 0x1_0000

  datatype Extension = Extension(kind: U16, body: Long)

  /** A handshake record. Record length, handshake length and versions are whatever the client
      wrote; the parser does not read the lengths. `otherNames` holds further server-name entries. */
  datatype Hello = Hello(
    major: Byte, minor: Byte,
    recordLength: Bytes,
    handshakeLength: Bytes,
    versionAndRandom: Bytes,
    sessionId: Short,
    cipherSuites: Long,
    compression: Short,
    before: seq<Extension>,
    name: Bytes,
    otherNames: Bytes,
    after: seq<Extension>)

  // Every printer puts its own bytes in front of `rest`.

  function Word(n: U16): Bytes {
    [n / 256, n % 256]
  }

  function PrintExtension(e: Extension, rest: Bytes): Bytes {
    Word(e.kind) + (Word(|e.body|) + (e.body + rest))
  }

  function PrintExtensions(es: seq<Extension>, rest: Bytes): Bytes {
    if es == [] then rest else PrintExtension(es[0], PrintExtensions(es[1..], rest))
  }

  /** The server_name extension: kind 0, sizes, one host_name entry, further entries. */
  function PrintServerName(name: Bytes, others: Bytes, rest: Bytes): Bytes
    requires 5 + |name| + |others| < 0x1_0000
  {
    Word(0) + (Word(5 + |name| + |others|) + (Word(3 + |name| + |others|) +
    ([0] + (Word(|name|) + (name + (others + rest))))))
  }

  function PrintSections(h: Hello, rest: Bytes): Bytes {
    [|h.sessionId|] + (h.sessionId + (Word(|h.cipherSuites|) + (h.cipherSuites +
    ([|h.compression|] + (h.compression + rest)))))
  }

  function PrintHeader(h: Hello, rest: Bytes): Bytes {
    [0x16, h.major, h.minor] + (h.recordLength + ([0x01] + (h.handshakeLength + (h.versionAndRandom + rest))))
  }

  function ExtensionBlock(h: Hello): Bytes
    requires 5 + |h.name| + |h.otherNames| < 0x1_0000
  {
    PrintExtensions(h.before, PrintServerName(h.name, h.otherNames, PrintExtensions(h.after, [])))
  }

  predicate WellFormed(h: Hello) {
    && (h.major > 3 || (h.major == 3 && h.minor >= 1))
    && |h.recordLength| == 2 && |h.handshakeLength| == 3 && |h.versionAndRandom| == 34
    && (forall e | e in h.before :: e.kind != 0)
    && h.name != [] && 5 + |h.name| + |h.otherNames| < 0x1_0000
    && |ExtensionBlock(h)| < 0x1_0000
  }

  function Print(h: Hello): Bytes
    requires WellFormed(h)
  {
    PrintHeader(h, PrintSections(h, Word(|ExtensionBlock(h)|) + ExtensionBlock(h)))
  }

  function SizeOf(es: seq<Extension>): nat {
    if es == [] then 0 else 4 + |es[0].body| + SizeOf(es[1..])
  }

  function SectionsSize(h: Hello): nat {
    4 + |h.sessionId| + |h.cipherSuites| + |h.compression|
  }

  /** Position of the host name in the printed record. */
  function NameStart(h: Hello): nat {
    CLIENT_HELLO_FIXED + SectionsSize(h) + 2 + SizeOf(h.before) + 9
  }

  // ---------------------------------------------------------------- reading back fields

  /** `data` agrees with `part` from `i` on, as far as `data` goes. */
  ghost predicate Shows(data: Bytes, i: nat, part: Bytes) {
    forall j :: i <= j < |data| && j < i + |part| ==> data[j] == part[j - i]
  }

  lemma ShowsTail(data: Bytes, i: nat, a: Bytes, b: Bytes)
    requires Shows(data, i, a + b)
    ensures Shows(data, i, a) && Shows(data, i + |a|, b)
  {
    forall j | i <= j < |data| && j < i + |a| ensures data[j] == a[j - i] {
      assert (a + b)[j - i] == a[j - i];
    }
    forall j | i + |a| <= j < |data| && j < i + |a| + |b| ensures data[j] == b[j - (i + |a|)] {
      assert (a + b)[j - i] == b[j - (i + |a|)];
    }
  }

  /** Read a 16-bit field, if it is there, and step over it. */
  lemma ShowsWord(data: Bytes, i: nat, n: U16, rest: Bytes)
    requires Shows(data, i, Word(n) + rest)
    ensures i + 2 <= |data| ==> U16At(data, i) == n
    ensures Shows(data, i + 2, rest)
  {
    ShowsTail(data, i, Word(n), rest);
    if i + 2 <= |data| {
      assert data[i] == Word(n)[0] && data[i + 1] == Word(n)[1];
    }
  }

  lemma ShowsByte(data: Bytes, i: nat, n: Byte, rest: Bytes)
    requires Shows(data, i, [n] + rest)
    ensures i < |data| ==> data[i] == n
    ensures Shows(data, i + 1, rest)
  {
    ShowsTail(data, i, [n], rest);
  }

  // ---------------------------------------------------------------- the walk

  lemma {:induction false} SkipExtensions(data: Bytes, p: nat, end: nat, es: seq<Extension>, rest: Bytes)
    requires end <= |data| && Shows(data, p, PrintExtensions(es, rest))
    requires forall e | e in es :: e.kind != 0
    ensures FindSni(data, p, end) == FindSni(data, p + SizeOf(es), end)
    ensures Shows(data, p + SizeOf(es), rest)
    decreases |es|
  {
    hide Shows, FindSni, PrintExtension;
    if es != [] {
      var e, tail := es[0], PrintExtensions(es[1..], rest);
      assert e in es;
      SkipExtension(data, p, end, e, tail);
      SkipExtensions(data, p + 4 + |e.body|, end, es[1..], rest);
    }
  }

  lemma SkipExtension(data: Bytes, p: nat, end: nat, e: Extension, rest: Bytes)
    requires end <= |data| && Shows(data, p, PrintExtension(e, rest)) && e.kind != 0
    ensures FindSni(data, p, end) == FindSni(data, p + 4 + |e.body|, end)
    ensures Shows(data, p + 4 + |e.body|, rest)
  {
    hide Shows, Word;
    ShowsWord(data, p, e.kind, Word(|e.body|) + (e.body + rest));
    ShowsWord(data, p + 2, |e.body|, e.body + rest);
    ShowsTail(data, p + 4, e.body, rest);
    if p + 4 <= end {
      assert !NameAt(data, p, end);
    }
  }

  lemma ReadServerName(data: Bytes, p: nat, end: nat, name: Bytes, others: Bytes, rest: Bytes)
    requires end <= |data| && name != [] && 5 + |name| + |others| < 0x1_0000
    requires Shows(data, p, PrintServerName(name, others, rest))
    ensures FindSni(data, p, end) == if p + 9 + |name| <= end then Host(p + 9, |name|) else Absent
    ensures Shows(data, p + 9, name)
  {
    hide Shows, Word;
    var size := 5 + |name| + |others|;
    var t := name + (others + rest);
    ShowsWord(data, p, 0, Word(size) + (Word(size - 2) + ([0] + (Word(|name|) + t))));
    ShowsWord(data, p + 2, size, Word(size - 2) + ([0] + (Word(|name|) + t)));
    ShowsWord(data, p + 4, size - 2, [0] + (Word(|name|) + t));
    ShowsByte(data, p + 6, 0, Word(|name|) + t);
    ShowsWord(data, p + 7, |name|, t);
    ShowsTail(data, p + 9, name, others + rest);
  }

  lemma ReadSections(data: Bytes, h: Hello, rest: Bytes)
    requires Shows(data, CLIENT_HELLO_FIXED, PrintSections(h, rest))
    ensures var off := CLIENT_HELLO_FIXED + SectionsSize(h);
            && Preamble(data) == (if off + 2 <= |data| then Some(off) else None)
            && Shows(data, off, rest)
  {
    hide Shows, Word;
    var a := CLIENT_HELLO_FIXED;
    var b := a + 1 + |h.sessionId|;
    var c := b + 2 + |h.cipherSuites|;
    var t3 := h.compression + rest;
    var t2 := h.cipherSuites + ([|h.compression|] + t3);
    ShowsByte(data, a, |h.sessionId|, h.sessionId + (Word(|h.cipherSuites|) + t2));
    ShowsTail(data, a + 1, h.sessionId, Word(|h.cipherSuites|) + t2);
    ShowsWord(data, b, |h.cipherSuites|, t2);
    ShowsTail(data, b + 2, h.cipherSuites, [|h.compression|] + t3);
    ShowsByte(data, c, |h.compression|, t3);
    ShowsTail(data, c + 1, h.compression, rest);
  }

  lemma ReadHeader(data: Bytes, h: Hello, rest: Bytes)
    requires WellFormed(h) && Shows(data, 0, PrintHeader(h, rest))
    ensures |data| >= 5 ==> RecordHeader(data) == if |data| == 5 then None else Some(true)
    ensures Shows(data, CLIENT_HELLO_FIXED, rest)
  {
    var t3 := h.versionAndRandom + rest;
    var t2 := [0x01] + (h.handshakeLength + t3);
    ShowsTail(data, 0, [0x16, h.major, h.minor], h.recordLength + t2);
    ShowsTail(data, 3, h.recordLength, t2);
    ShowsByte(data, 5, 0x01, h.handshakeLength + t3);
    ShowsTail(data, 6, h.handshakeLength, t3);
    ShowsTail(data, 9, h.versionAndRandom, rest);
    if |data| >= 5 {
      assert data[0] == 0x16 && data[1] == h.major && data[2] == h.minor;
    }
  }

  lemma {:induction false} ExtensionsSize(es: seq<Extension>, rest: Bytes)
    ensures |PrintExtensions(es, rest)| == SizeOf(es) + |rest|
  {
    if es != [] {
      ExtensionsSize(es[1..], rest);
    }
  }

  lemma PrintSize(h: Hello)
    requires WellFormed(h)
    ensures NameStart(h) + |h.name| <= |Print(h)| == CLIENT_HELLO_FIXED + SectionsSize(h) + 2 + |ExtensionBlock(h)|
  {
    ExtensionsSize(h.before, PrintServerName(h.name, h.otherNames, PrintExtensions(h.after, [])));
  }

  // ---------------------------------------------------------------- the round trip

  /** The extension walk over any leading part of a printed record. */
  lemma WalkLeadingPart(h: Hello, data: Bytes, off: nat)
    requires WellFormed(h) && off == CLIENT_HELLO_FIXED + SectionsSize(h)
    requires Shows(data, off, Word(|ExtensionBlock(h)|) + ExtensionBlock(h))
    requires |data| <= off + 2 + |ExtensionBlock(h)|
    ensures Shows(data, NameStart(h), h.name)
    ensures off + 2 <= |data| ==>
              FindSni(data, off + 2, ExtensionsEnd(data, off))
              == if NameStart(h) + |h.name| <= |data| then Host(NameStart(h), |h.name|) else Absent
  {
    hide Shows, Word, PrintServerName, PrintExtensions, FindSni, U16At;
    var block := ExtensionBlock(h);
    var server := PrintServerName(h.name, h.otherNames, PrintExtensions(h.after, []));
    ShowsWord(data, off, |block|, block);
    var end := if off + 2 <= |data| then ExtensionsEnd(data, off) else 0;
    assert off + 2 <= |data| ==> end == |data|;
    SkipExtensions(data, off + 2, end, h.before, server);
    ReadServerName(data, NameStart(h) - 9, end, h.name, h.otherNames, PrintExtensions(h.after, []));
  }

  /** What the parser makes of any leading part of a printed record. */
  lemma ParseLeadingPart(h: Hello, data: Bytes)
    requires WellFormed(h) && data <= Print(h) && |data| <= MAX_TLS_INSPECT
    ensures TlsSni(data) ==
            if |data| == 5 then OutOfBounds
            else if NameStart(h) + |h.name| <= |data| then Host(NameStart(h), |h.name|)
            else Absent
    ensures Shows(data, NameStart(h), h.name)
  {
    hide Shows, Word, PrintHeader, PrintSections, PrintExtensions, PrintServerName, FindSni, Preamble, RecordHeader;
    var rest := Word(|ExtensionBlock(h)|) + ExtensionBlock(h);
    PrefixShows(data, Print(h));
    PrintSize(h);
    ReadHeader(data, h, PrintSections(h, rest));
    ReadSections(data, h, rest);
    WalkLeadingPart(h, data, CLIENT_HELLO_FIXED + SectionsSize(h));
    hide ExtensionBlock, WellFormed;
    assert Head(data, MAX_TLS_INSPECT) == data;
  }

  /** The bytes by which a record is recognised. */
  lemma RecordHead(h: Hello)
    requires WellFormed(h)
    ensures |Print(h)| >= 6
    ensures Print(h)[0] == 0x16 && Print(h)[1] == h.major && Print(h)[2] == h.minor && Print(h)[5] == 0x01
  {
    hide PrintSections, ExtensionBlock, Word, PrintExtensions;
  }

  lemma PrefixShows(data: Bytes, whole: Bytes)
    requires data <= whole
    ensures Shows(data, 0, whole)
  {}

  /** The answer on the first `n` bytes of a printed record, for every `n` and any record length. Five
      bytes are read past their end; until the name is complete there is no answer, and
      from then on it is the name, provided it lies within the inspected 512 bytes. */
  lemma ParseOfPrefix(h: Hello, n: nat)
    requires WellFormed(h) && n <= |Print(h)|
    ensures TlsSni(Print(h)[..n]) ==
            if n == 5 then OutOfBounds
            else if NameStart(h) + |h.name| <= Min(n, MAX_TLS_INSPECT) then Host(NameStart(h), |h.name|)
            else Absent
  {
    var data := Head(Print(h)[..n], MAX_TLS_INSPECT);
    assert data == Print(h)[..Min(n, MAX_TLS_INSPECT)];
    ParseLeadingPart(h, data);
    assert Head(data, MAX_TLS_INSPECT) == data;
  }

  /** Whenever the name is within the inspected part, it stands where the parser finds it. */
  lemma NameInPrefix(h: Hello, n: nat)
    requires WellFormed(h) && n <= |Print(h)| && NameStart(h) + |h.name| <= Min(n, MAX_TLS_INSPECT)
    ensures Print(h)[..n][NameStart(h)..NameStart(h) + |h.name|] == h.name
  {
    var whole := Print(h);
    var data := whole[..Min(n, MAX_TLS_INSPECT)];
    ParseLeadingPart(h, data);
    hide Print, WellFormed, NameStart, TlsSni, Shows;
    ShowsName(h, data);
    var a, b := NameStart(h), NameStart(h) + |h.name|;
    assert whole[..n][a..b] == data[a..b];
  }

  lemma ShowsName(h: Hello, data: Bytes)
    requires Shows(data, NameStart(h), h.name) && NameStart(h) + |h.name| <= |data|
    ensures data[NameStart(h)..NameStart(h) + |h.name|] == h.name
  {}

  /** The round trip: parsing a printed ClientHello of at most 512 bytes gives its host name. */
  lemma RoundTrip(h: Hello)
    requires WellFormed(h) && |Print(h)| <= 512
    ensures TlsSni(Print(h)) == Host(NameStart(h), |h.name|)
    ensures NameStart(h) + |h.name| <= |Print(h)|
    ensures Print(h)[NameStart(h)..NameStart(h) + |h.name|] == h.name
  {
    PrintSize(h);
    ParseLeadingPart(h, Print(h));
  }
}
