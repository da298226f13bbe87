/** Hostname extraction from the head of a TCP payload: the TLS server_name and HTTP Host parsers of
    include/dpdk/spi/spi_packet_parser.cpp, as cursor loops proved against what they look for. */
module HostExtraction {
  import opened Machine

  const MAX_TLS_INSPECT: nat := 512
  const MAX_HTTP_INSPECT: nat := 256

  /** Where a hostname was found in the inspected bytes. */
  datatype Found = Absent | Host(start: nat, length: nat) | OutOfBounds

  function Head(payload: Bytes, limit: nat): Bytes {
    payload[..Min(|payload|, limit)]
  }

  // ---------------------------------------------------------------- HTTP

  const SPACE: Byte := 32
  const CR: Byte := 13

  /** "\r\nHost:" at `i`, with at least one byte after it. */
  predicate PatternAt(data: Bytes, i: nat) {
    && i + 7 < |data|
    && data[i] == 13 && data[i + 1] == 10
    && data[i + 2] == 72 && data[i + 3] == 111 && data[i + 4] == 115 && data[i + 5] == 116 && data[i + 6] == 58
  }

  /** First position at or after `i` that is not a space. */
  function AfterSpaces(data: Bytes, i: nat): (r: nat)
    requires i <= |data|
    ensures i <= r <= |data|
    ensures forall j :: i <= j < r ==> data[j] == SPACE
    ensures r < |data| ==> data[r] != SPACE
    decreases |data| - i
  {
    if i < |data| && data[i] == SPACE then AfterSpaces(data, i + 1) else i
  }

  /** First carriage return at or after `i`, or the end of the data. */
  function LineEnd(data: Bytes, i: nat): (r: nat)
    requires i <= |data|
    ensures i <= r <= |data|
    ensures forall j :: i <= j < r ==> data[j] != CR
    ensures r < |data| ==> data[r] == CR
    decreases |data| - i
  {
    if i < |data| && data[i] != CR then LineEnd(data, i + 1) else i
  }

  /** The header at `i` has a non-empty value. */
  predicate HostAt(data: Bytes, i: nat) {
    PatternAt(data, i) && AfterSpaces(data, i + 7) < LineEnd(data, AfterSpaces(data, i + 7))
  }

  function ValueAt(data: Bytes, i: nat): Found
    requires PatternAt(data, i)
  {
    var start := AfterSpaces(data, i + 7);
    Host(start, LineEnd(data, start) - start)
  }

  /** The value of the first Host header with a value, looking from `i` on. */
  function FindHost(data: Bytes, i: nat): Found
    decreases |data| - i
  {
    if i + 7 >= |data| then Absent
    else if HostAt(data, i) then ValueAt(data, i)
    else FindHost(data, i + 1)
  }

  /** Four leading bytes of a request method, as the parser compares them. */
  predicate IsHttpMethod(data: Bytes)
    requires |data| >= 4
  {
    data[..4] in {[71, 69, 84, 32], [80, 79, 83, 84], [72, 69, 65, 68], [80, 85, 84, 32],
                  [68, 69, 76, 69], [80, 65, 84, 67], [79, 80, 84, 73]}
  }

  function HttpHost(payload: Bytes): Found {
    var data := Head(payload, MAX_HTTP_INSPECT);
    if |data| < 4 || !IsHttpMethod(data) then Absent else FindHost(data, 4)
  }

  method FindHostHeaderValue(data: Bytes) returns (r: Found)
    ensures r == FindHost(data, 4)
  {
    var i := 4;
    while i + 7 < |data|
      invariant FindHost(data, 4) == FindHost(data, i)
      decreases |data| - i
    {
      if data[i] != 13 || data[i + 1] != 10 || data[i + 2] != 72 || data[i + 3] != 111 ||
         data[i + 4] != 115 || data[i + 5] != 116 || data[i + 6] != 58 {
        i := i + 1;
        continue;
      }
      var off := i + 7;
      while off < |data| && data[off] == SPACE
        invariant i + 7 <= off <= |data|
        invariant AfterSpaces(data, i + 7) == AfterSpaces(data, off)
      {
        off := off + 1;
      }
      var start := off;
      while off < |data| && data[off] != CR
        invariant start <= off <= |data|
        invariant LineEnd(data, start) == LineEnd(data, off)
      {
        off := off + 1;
      }
      if off > start {
        return Host(start, off - start);
      }
      i := i + 1;
    }
    r := Absent;
  }

  /** `k` is the first position from `i` on that holds a Host header with a value. */
  ghost predicate FirstHost(data: Bytes, i: nat, k: nat) {
    i <= k && HostAt(data, k) && forall j :: i <= j < k ==> !HostAt(data, j)
  }

  lemma {:induction false} FindHostIsFirst(data: Bytes, i: nat)
    ensures FindHost(data, i) == Absent <==> forall k :: i <= k ==> !HostAt(data, k)
    ensures FindHost(data, i) != Absent ==> exists k :: FirstHost(data, i, k) && FindHost(data, i) == ValueAt(data, k)
    decreases |data| - i
  {
    if i + 7 < |data| {
      if HostAt(data, i) {
        assert FirstHost(data, i, i);
      } else {
        FindHostIsFirst(data, i + 1);
        if FindHost(data, i) != Absent {
          var k :| FirstHost(data, i + 1, k) && FindHost(data, i + 1) == ValueAt(data, k);
          assert FirstHost(data, i, k);
        }
      }
    }
  }

  /** The span overload: never out of bounds; a name is found exactly when a known method is followed by a
      Host header with a value, and then it is the value of the first one: inside the inspected 256 bytes, not
      empty, without carriage return or leading space. */
  method ExtractHttpHost(payload: Bytes) returns (r: Found)
    ensures r == HttpHost(payload) && r != OutOfBounds
    ensures r.Host? ==> 0 < r.length && r.start + r.length <= Min(|payload|, 256)
    ensures r.Host? ==> CR !in payload[r.start..r.start + r.length] && payload[r.start] != SPACE
    ensures var data := Head(payload, MAX_HTTP_INSPECT);
            && (r.Host? <==> |data| >= 4 && IsHttpMethod(data) && exists k :: 4 <= k && HostAt(data, k))
            && (r.Host? ==> exists k :: FirstHost(data, 4, k) && r == ValueAt(data, k))
  {
    var data := Head(payload, MAX_HTTP_INSPECT);
    if |data| < 4 || !IsHttpMethod(data) {
      return Absent;
    }
    FindHostIsFirst(data, 4);
    r := FindHostHeaderValue(data);
  }

  /** A Host header at `k`, byte by byte: line break, "Host:", spaces, and a value of `length` bytes that
      begins with neither space nor carriage return and runs to the next carriage return or the end. */
  ghost predicate HeaderWith(data: Bytes, k: nat, start: nat, length: nat) {
    && k + 7 <= start && 0 < length && start + length <= |data|
    && data[k..k + 7] == [13, 10, 72, 111, 115, 116, 58]
    && (forall j :: k + 7 <= j < start ==> data[j] == 32) && data[start] != 32
    && (forall j :: start <= j < start + length ==> data[j] != 13)
    && (start + length < |data| ==> data[start + length] == 13)
  }

  lemma HeaderAtIff(data: Bytes, k: nat, start: nat, length: nat)
    ensures HeaderWith(data, k, start, length) <==> HostAt(data, k) && ValueAt(data, k) == Host(start, length)
  {
    if k + 7 < |data| {
      var part := data[k..k + 7];
      assert PatternAt(data, k) <==> part == [13, 10, 72, 111, 115, 116, 58] by {
        assert part[0] == data[k] && part[1] == data[k + 1] && part[2] == data[k + 2] && part[3] == data[k + 3];
        assert part[4] == data[k + 4] && part[5] == data[k + 5] && part[6] == data[k + 6];
      }
      var s := AfterSpaces(data, k + 7);
      var e := LineEnd(data, s);
      if HeaderWith(data, k, start, length) {
        assert s == start;
        assert e == start + length;
      }
    }
  }

  /** What the HTTP parser finds, without reference to how it looks: in the first 256 bytes of a payload that
      begins like a request, the value of the first Host header that has one. */
  lemma HttpHostIff(payload: Bytes, start: nat, length: nat)
    ensures HttpHost(payload) == Host(start, length) <==>
            var data := payload[..Min(|payload|, 256)];
            && |data| >= 4 && IsHttpMethod(data)
            && exists k :: 4 <= k && HeaderWith(data, k, start, length)
                           && forall j, s: nat, l: nat :: 4 <= j < k ==> !HeaderWith(data, j, s, l)
  {
    var data := payload[..Min(|payload|, 256)];
    forall k: nat, s: nat, l: nat
      ensures HeaderWith(data, k, s, l) <==> HostAt(data, k) && ValueAt(data, k) == Host(s, l)
    {
      HeaderAtIff(data, k, s, l);
    }
    FindHostIsFirst(data, 4);
    hide HeaderWith, IsHttpMethod, PatternAt;
    if |data| >= 4 && IsHttpMethod(data) {
      if HttpHost(payload) == Host(start, length) {
        var k :| FirstHost(data, 4, k) && FindHost(data, 4) == ValueAt(data, k);
        assert HeaderWith(data, k, start, length);
      } else if k :| 4 <= k && HeaderWith(data, k, start, length)
                     && forall j, s: nat, l: nat :: 4 <= j < k ==> !HeaderWith(data, j, s, l)
      {
        FirstIsThere(data, k, start, length);
      }
    }
  }

  lemma FirstIsThere(data: Bytes, k: nat, start: nat, length: nat)
    requires 4 <= k && HeaderWith(data, k, start, length)
    requires forall j, s: nat, l: nat :: 4 <= j < k ==> !HeaderWith(data, j, s, l)
    ensures FindHost(data, 4) == Host(start, length)
  {
    HeaderAtIff(data, k, start, length);
    forall j | 4 <= j < k ensures !HostAt(data, j) {
      if HostAt(data, j) {
        HeaderAtIff(data, j, ValueAt(data, j).start, ValueAt(data, j).length);
      }
    }
    hide HeaderWith, HostAt;
    ReachFirst(data, 4, k);
  }

  lemma {:induction false} ReachFirst(data: Bytes, i: nat, k: nat)
    requires i <= k && HostAt(data, k) && forall j :: i <= j < k ==> !HostAt(data, j)
    ensures FindHost(data, i) == ValueAt(data, k)
    decreases k - i
  {
    if i < k {
      ReachFirst(data, i + 1, k);
    }
  }

  // ---------------------------------------------------------------- HTTP on a prefix

  /** What is left of an answer when only the first `n` bytes are visible. */
  function Truncated(f: Found, n: nat): Found {
    match f
    case Host(start, length) => if n <= start then Absent else Host(start, Min(start + length, n) - start)
    case _ => f
  }

  lemma {:induction false} HostStartsAfterPattern(data: Bytes, i: nat)
    ensures var f := FindHost(data, i);
            f.Absent? || (f.Host? && f.start >= i + 7 && 0 < f.length && f.start + f.length <= |data|)
    decreases |data| - i
  {
    if i + 7 < |data| {
      HostStartsAfterPattern(data, i + 1);
    }
  }

  lemma {:induction false} NoHeaderAhead(data: Bytes, i: nat)
    requires forall j :: i <= j < |data| ==> data[j] != CR
    ensures FindHost(data, i) == Absent
    decreases |data| - i
  {
    if i + 7 < |data| {
      NoHeaderAhead(data, i + 1);
    }
  }

  lemma {:induction false} SpacesOfPrefix(data: Bytes, n: nat, i: nat)
    requires i <= n <= |data|
    ensures AfterSpaces(data[..n], i) == Min(AfterSpaces(data, i), n)
    decreases n - i
  {
    if i < n && data[i] == SPACE {
      SpacesOfPrefix(data, n, i + 1);
    }
  }

  lemma {:induction false} LineOfPrefix(data: Bytes, n: nat, i: nat)
    requires i <= n <= |data|
    ensures LineEnd(data[..n], i) == Min(LineEnd(data, i), n)
    decreases n - i
  {
    if i < n && data[i] != CR {
      LineOfPrefix(data, n, i + 1);
    }
  }

  /** One header seen through a prefix that ends after its first value byte, or not. */
  lemma HeaderOfPrefix(data: Bytes, n: nat, i: nat)
    requires i + 7 < n <= |data| && PatternAt(data, i)
    ensures PatternAt(data[..n], i)
    ensures var start := AfterSpaces(data, i + 7);
            && (start < n ==> (HostAt(data[..n], i) <==> HostAt(data, i)))
            && (start < n && HostAt(data, i) ==> ValueAt(data[..n], i) == Truncated(ValueAt(data, i), n))
            && (start >= n ==> !HostAt(data[..n], i) && FindHost(data[..n], i + 1) == Absent)
  {
    var d, start := data[..n], AfterSpaces(data, i + 7);
    SpacesOfPrefix(data, n, i + 7);
    if start < n {
      LineOfPrefix(data, n, start);
    } else {
      NoHeaderAhead(d, i + 1);
    }
  }

  lemma {:induction false} FindHostOfPrefix(data: Bytes, n: nat, i: nat)
    requires n <= |data|
    ensures FindHost(data[..n], i) == Truncated(FindHost(data, i), n)
    decreases |data| - i
  {
    if i + 7 >= n {
      HostStartsAfterPattern(data, i);
    } else {
      FindHostOfPrefix(data, n, i + 1);
      if PatternAt(data, i) {
        HeaderOfPrefix(data, n, i);
      }
    }
  }

  /** Exactly what the HTTP parser answers on a prefix: nothing until the value has begun, and
      from then on as much of the value as is visible. */
  lemma HttpHostOfPrefix(payload: Bytes, n: nat)
    requires n <= |payload|
    ensures HttpHost(payload[..n]) == Truncated(HttpHost(payload), n)
  {
    var data := Head(payload, MAX_HTTP_INSPECT);
    var k := Min(n, |data|);
    assert Head(payload[..n], MAX_HTTP_INSPECT) == data[..k];
    HostStartsAfterPattern(data, 4);
    if |data| >= 4 {
      FindHostOfPrefix(data, k, 4);
      if k >= 4 {
        assert data[..k][..4] == data[..4];
      }
    }
  }

  /** The answer on a prefix names a host, but not the host of the whole request. */
  ghost predicate Misleading(payload: Bytes, n: nat)
    requires n <= |payload|
  {
    HttpHost(payload[..n]).Host? && HttpHost(payload[..n]) != HttpHost(payload)
  }

  /** Inspecting a request before it is complete goes wrong exactly when the cut falls strictly
      inside the value of the Host header: the parser then reports the part before the cut. */
  lemma MisleadingExactlyInsideValue(payload: Bytes, n: nat)
    requires n <= |payload|
    ensures Misleading(payload, n) <==>
            var f := HttpHost(payload); f.Host? && f.start < n < f.start + f.length
  {
    HttpHostOfPrefix(payload, n);
  }

  /** Reading back a request: the value of its first Host header, without the spaces before it. */
  lemma HostReadsBack(front: Bytes, spaces: Bytes, name: Bytes, rest: Bytes)
    requires |front| >= 4 && IsHttpMethod(front)
    requires forall x | x in spaces :: x == SPACE
    requires name != [] && name[0] != SPACE && CR !in name
    requires var request := front + [13, 10, 72, 111, 115, 116, 58] + spaces + name + [CR] + rest;
             && |request| <= 256
             && forall i :: 4 <= i < |front| ==> !PatternAt(request, i)
    ensures HttpHost(front + [13, 10, 72, 111, 115, 116, 58] + spaces + name + [CR] + rest)
            == Host(|front| + 7 + |spaces|, |name|)
  {
    var request := front + [13, 10, 72, 111, 115, 116, 58] + spaces + name + [CR] + rest;
    var start, end := |front| + 7 + |spaces|, |front| + 7 + |spaces| + |name|;
    forall j | |front| + 7 <= j < start ensures request[j] == SPACE {
      assert request[j] == spaces[j - |front| - 7] && request[j] in spaces;
    }
    forall j | start <= j < end ensures request[j] != CR {
      assert request[j] == name[j - start] && request[j] in name;
    }
    assert request[end] == CR && request[start] == name[0];
    assert AfterSpaces(request, |front| + 7) == start;
    assert LineEnd(request, start) == end;
    SkipToHeader(request, 4, |front|);
    assert PatternAt(request, |front|);
    assert Head(request, MAX_HTTP_INSPECT) == request;
    assert request[..4] == front[..4];
  }

  lemma {:induction false} SkipToHeader(data: Bytes, i: nat, j: nat)
    requires i <= j && forall k :: i <= k < j ==> !PatternAt(data, k)
    requires j + 7 < |data|
    ensures FindHost(data, i) == FindHost(data, j)
    decreases j - i
  {
    if i < j {
      SkipToHeader(data, i + 1, j);
    }
  }

  // ---------------------------------------------------------------- TLS

  function U16At(data: Bytes, i: nat): U16
    requires i + 2 <= |data|
  {
    (data[i] as int) * 256 + data[i + 1]
  }

  /** The record header is read at offsets 0, 1, 2 and 5; reading past the end is an error of its own. */
  function RecordHeader(data: Bytes): Option<bool>
    requires |data| >= 5
  {
    if data[0] != 0x16 then Some(false)
    else if data[1] < 0x03 || (data[1] == 0x03 && data[2] < 0x01) then Some(false)
    else if |data| < 6 then None
    else Some(data[5] == 0x01)
  }

  const CLIENT_HELLO_FIXED: nat := 9 + 2 + 32

  /** Offset of the extensions block. */
  function Preamble(data: Bytes): (r: Option<nat>)
    ensures r.Some? ==> r.value + 2 <= |data|
  {
    var a := CLIENT_HELLO_FIXED;
    if a >= |data| then None
    else
      var b := a + 1 + data[a];
      if b + 2 > |data| then None
      else
        var c := b + 2 + U16At(data, b);
        if c + 1 > |data| then None
        else
          var e := c + 1 + data[c];
          if e + 2 > |data| then None else Some(e)
  }

  /** The extension at `p` carries a complete, non-empty server name before `end`. */
  predicate NameAt(data: Bytes, p: nat, end: nat)
    requires end <= |data|
  {
    && p + 9 <= end
    && U16At(data, p) == 0
    && U16At(data, p + 7) > 0
    && p + 9 + U16At(data, p + 7) <= end
  }

  function FindSni(data: Bytes, p: nat, end: nat): (f: Found)
    requires end <= |data|
    ensures f.Absent? || (f.Host? && f.length > 0 && f.start + f.length <= end)
    decreases end - p
  {
    if p + 4 > end then Absent
    else if NameAt(data, p, end) then Host(p + 9, U16At(data, p + 7))
    else FindSni(data, p + 4 + U16At(data, p + 2), end)
  }

  /** Where the extensions that are both declared and present end. */
  function ExtensionsEnd(data: Bytes, off: nat): nat
    requires off + 2 <= |data|
  {
    Min(off + 2 + U16At(data, off), |data|)
  }

  function TlsSni(payload: Bytes): Found {
    var data := Head(payload, MAX_TLS_INSPECT);
    if |data| < 5 then Absent
    else
      match RecordHeader(data)
      case None => OutOfBounds
      case Some(false) => Absent
      case Some(true) =>
        match Preamble(data)
        case None => Absent
        case Some(off) => FindSni(data, off + 2, ExtensionsEnd(data, off))
  }

  /** A 16-bit size, high byte first. */
  function Size(high: Byte, low: Byte): nat {
    (high as int) * 256 + low
  }

  /** The lengths of the sections before the extensions, as positions: session id, cipher suites, compression
      methods. */
  ghost predicate SectionsAt(data: Bytes, ciphers: nat, methods: nat, extensions: nat) {
    && 43 < |data| && ciphers == 44 + Size(0, data[43]) && ciphers + 2 <= |data|
    && methods == ciphers + 2 + Size(data[ciphers], data[ciphers + 1]) && methods + 1 <= |data|
    && extensions == methods + 1 + Size(0, data[methods]) && extensions + 2 <= |data|
  }

  /** The extension at `p` is a server name of `length` bytes that lies before `end`. */
  ghost predicate ServerNameAt(data: Bytes, p: nat, end: nat, length: nat) {
    && 0 < length && p + 9 + length <= end <= |data|
    && data[p] == 0 && data[p + 1] == 0 && Size(data[p + 7], data[p + 8]) == length
  }

  /** Consecutive extensions from the first one on, of which only the last is such a server name. */
  ghost predicate ExtensionPath(data: Bytes, path: seq<nat>, end: nat, length: nat) {
    && path != [] && ServerNameAt(data, path[|path| - 1], end, length)
    && (forall i :: 0 <= i < |path| ==> path[i] + 4 <= end <= |data|)
    && (forall i :: 0 <= i < |path| - 1 ==>
          && path[i + 1] == path[i] + 4 + Size(data[path[i] + 2], data[path[i] + 3])
          && forall l: nat :: !ServerNameAt(data, path[i], end, l))
  }

  lemma NameAtIff(data: Bytes, p: nat, end: nat, length: nat)
    requires p + 4 <= end <= |data|
    ensures ServerNameAt(data, p, end, length) <==> NameAt(data, p, end) && length == U16At(data, p + 7)
  {}

  lemma {:induction false} PathFinds(data: Bytes, path: seq<nat>, end: nat, length: nat)
    requires ExtensionPath(data, path, end, length)
    ensures FindSni(data, path[0], end) == Host(path[|path| - 1] + 9, length)
    decreases |path|
  {
    NameAtIff(data, path[0], end, length);
    if |path| > 1 {
      if NameAt(data, path[0], end) {
        NameAtIff(data, path[0], end, U16At(data, path[0] + 7));
      }
      TailPath(data, path, end, length);
      hide ServerNameAt, NameAt, ExtensionPath;
      PathFinds(data, path[1..], end, length);
    }
  }

  lemma TailPath(data: Bytes, path: seq<nat>, end: nat, length: nat)
    requires ExtensionPath(data, path, end, length) && |path| > 1
    ensures ExtensionPath(data, path[1..], end, length) &&
            path[1] == path[0] + 4 + Size(data[path[0] + 2], data[path[0] + 3])
  {
    hide ServerNameAt;
    var rest := path[1..];
    forall i | 0 <= i < |rest| - 1
      ensures rest[i + 1] == rest[i] + 4 + Size(data[rest[i] + 2], data[rest[i] + 3])
      ensures forall l: nat :: !ServerNameAt(data, rest[i], end, l)
    {
      assert rest[i] == path[i + 1] && rest[i + 1] == path[i + 1 + 1];
    }
    assert path[0 + 1] == path[0] + 4 + Size(data[path[0] + 2], data[path[0] + 3]);
  }

  lemma {:induction false} FoundByPath(data: Bytes, p: nat, end: nat) returns (path: seq<nat>)
    requires end <= |data| && FindSni(data, p, end).Host?
    ensures path != [] && path[0] == p && ExtensionPath(data, path, end, FindSni(data, p, end).length)
    ensures FindSni(data, p, end).start == path[|path| - 1] + 9
    decreases end - p
  {
    if NameAt(data, p, end) {
      path := [p];
    } else {
      var rest := FoundByPath(data, p + 4 + U16At(data, p + 2), end);
      path := [p] + rest;
      forall l: nat ensures !ServerNameAt(data, p, end, l) {
        NameAtIff(data, p, end, l);
      }
      hide FindSni, NameAt;
      LongerPath(data, p, rest, end, FindSni(data, rest[0], end).length);
    }
  }

  lemma LongerPath(data: Bytes, p: nat, rest: seq<nat>, end: nat, length: nat)
    requires ExtensionPath(data, rest, end, length) && p + 4 <= end
    requires rest[0] == p + 4 + Size(data[p + 2], data[p + 3]) && forall l: nat :: !ServerNameAt(data, p, end, l)
    ensures ExtensionPath(data, [p] + rest, end, length)
  {
    hide ServerNameAt, Size;
    var path := [p] + rest;
    assert path[|path| - 1] == rest[|rest| - 1] && forall i :: 0 < i < |path| ==> path[i] == rest[i - 1];
    forall i | 0 <= i < |path| - 1
      ensures path[i + 1] == path[i] + 4 + Size(data[path[i] + 2], data[path[i] + 3])
      ensures forall l: nat :: !ServerNameAt(data, path[i], end, l)
    {
      if i > 0 {
        assert path[i] == rest[i - 1] && path[i + 1] == rest[i - 1 + 1];
      }
    }
  }

  /** A TLS handshake record of at least version 3.1 that carries a ClientHello. */
  predicate ClientHelloRecord(data: Bytes) {
    |data| >= 6 && data[0] == 22 && (data[1] > 3 || (data[1] == 3 && data[2] >= 1)) && data[5] == 1
  }

  /** Where the sections of the record put the extensions, and which of them names the server. */
  ghost predicate NamesServer(data: Bytes, ciphers: nat, methods: nat, extensions: nat, path: seq<nat>, start: nat,
                              length: nat) {
    && SectionsAt(data, ciphers, methods, extensions)
    && var end := Min(extensions + 2 + Size(data[extensions], data[extensions + 1]), |data|);
    && ExtensionPath(data, path, end, length) && path[0] == extensions + 2 && start == path[|path| - 1] + 9
  }

  /** What the TLS parser finds, without reference to how it looks: in the first 512 bytes, in a ClientHello
      record, behind the three sections, the first extension of type zero that holds a complete, non-empty
      name. */
  lemma TlsSniIff(payload: Bytes, start: nat, length: nat)
    ensures TlsSni(payload) == Host(start, length) <==>
            var data := payload[..Min(|payload|, 512)];
            && ClientHelloRecord(data)
            && exists ciphers: nat, methods: nat, extensions: nat, path ::
                 NamesServer(data, ciphers, methods, extensions, path, start, length)
  {
    hide FindSni, ExtensionPath, U16At, TlsSni, Preamble, ClientHelloRecord, ExtensionsEnd, SectionsAt;
    var data := payload[..Min(|payload|, 512)];
    TlsSniSteps(payload);
    PreambleIff(data);
    if TlsSni(payload) == Host(start, length) {
      var e := Preamble(data).value;
      EndIs(data, e);
      var path := FoundByPath(data, e + 2, ExtensionsEnd(data, e));
      var b: nat, c: nat :| SectionsAt(data, b, c, e);
      assert NamesServer(data, b, c, e, path, start, length);
    } else if ClientHelloRecord(data) {
      if b: nat, c: nat, e: nat, path :| NamesServer(data, b, c, e, path, start, length) {
        SectionsGivePreamble(data, b, c, e);
        EndIs(data, e);
        PathFinds(data, path, ExtensionsEnd(data, e), length);
      }
    }
  }

  lemma TlsSniSteps(payload: Bytes)
    ensures var data := payload[..Min(|payload|, 512)];
            && (TlsSni(payload).Host? ==> ClientHelloRecord(data) && Preamble(data).Some?)
            && (ClientHelloRecord(data) && Preamble(data).Some? ==>
                  var off := Preamble(data).value;
                  TlsSni(payload) == FindSni(data, off + 2, ExtensionsEnd(data, off)))
  {
    hide Preamble, FindSni, ExtensionsEnd;
  }

  lemma EndIs(data: Bytes, e: nat)
    requires e + 2 <= |data|
    ensures ExtensionsEnd(data, e) == Min(e + 2 + Size(data[e], data[e + 1]), |data|)
  {}

  lemma PreambleIff(data: Bytes)
    ensures Preamble(data).Some? ==> exists b: nat, c: nat :: SectionsAt(data, b, c, Preamble(data).value)
  {
    if Preamble(data).Some? {
      var b := 44 + Size(0, data[43]);
      var c := b + 2 + U16At(data, b);
      assert SectionsAt(data, b, c, Preamble(data).value);
    }
  }

  lemma SectionsGivePreamble(data: Bytes, b: nat, c: nat, e: nat)
    requires SectionsAt(data, b, c, e)
    ensures Preamble(data) == Some(e)
  {}

  method FindSniExtension(data: Bytes, extOffset: nat) returns (r: Found)
    requires extOffset + 2 <= |data|
    ensures r == FindSni(data, extOffset + 2, ExtensionsEnd(data, extOffset))
  {
    var extLen := U16At(data, extOffset);
    var off := extOffset + 2;
    var end := Min(off + extLen, |data|);
    while off + 4 <= end
      invariant FindSni(data, off, end) == FindSni(data, extOffset + 2, end)
      decreases end - off
    {
      var extType := U16At(data, off);
      var extDataLen := U16At(data, off + 2);
      if extType == 0 && off + 9 <= end {
        var nameLen := U16At(data, off + 7);
        if off + 9 + nameLen <= end && nameLen > 0 {
          return Host(off + 9, nameLen);
        }
      }
      off := off + 4 + extDataLen;
    }
    r := Absent;
  }

  /** The span overload: the returned name always lies inside the inspected bytes, and the only
      payloads on which it reads past the end are five bytes long and look like a TLS record. */
  method ExtractTlsSni(payload: Bytes) returns (r: Found)
    ensures r == TlsSni(payload)
    ensures r.Host? ==> 0 < r.length && r.start + r.length <= Min(|payload|, 512)
    ensures r == OutOfBounds <==>
            && |payload| == 5 && payload[0] == 0x16
            && (payload[1] > 0x03 || (payload[1] == 0x03 && payload[2] >= 0x01))
  {
    var data := Head(payload, MAX_TLS_INSPECT);
    if |data| < 5 {
      return Absent;
    }
    var header := RecordHeader(data);
    if header.None? {
      return OutOfBounds;
    }
    if !header.value {
      return Absent;
    }
    var extOffset := Preamble(data);
    if extOffset.None? {
      return Absent;
    }
    r := FindSniExtension(data, extOffset.value);
  }
}
