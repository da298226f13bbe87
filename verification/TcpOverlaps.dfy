/** Pieces of a stream that overlap. One direction, no limit in the way: the reassembler works like a front
    that advances over the pieces, and its final position depends on their order only where one piece
    straddles the end of another. */
module TcpOverlaps {
  import opened Machine
  import opened Packet
  import opened TcpReassembly
  import opened TcpAccounting
  import opened TcpContent
  import opened TcpOrder

  /** Bytes `from` up to, not including, `to` of a stream. */
  datatype Piece = Piece(from: nat, to: nat)

  predicate Within(bytes: Bytes, p: Piece) {
    p.from < p.to <= |bytes|
  }

  predicate AllWithin(bytes: Bytes, pieces: seq<Piece>) {
    forall i :: 0 <= i < |pieces| ==> Within(bytes, pieces[i])
  }

  function Data(bytes: Bytes, p: Piece): Bytes
    requires Within(bytes, p)
  {
    bytes[p.from..p.to]
  }

  // ---------------------------------------------------------------- the front

  /** The next expected byte, and the pieces waiting ahead of it. */
  datatype Front = Front(n: nat, ahead: seq<Piece>)

  /** Index of the first waiting piece that starts at `n`, or their number. */
  function FirstFrom(ahead: seq<Piece>, n: nat): (i: nat)
    ensures i <= |ahead|
    ensures i < |ahead| ==> ahead[i].from == n
    ensures forall j :: 0 <= j < i ==> ahead[j].from != n
  {
    if ahead == [] || ahead[0].from == n then 0 else 1 + FirstFrom(ahead[1..], n)
  }

  function Taken(f: Front, i: nat): Front
    requires i < |f.ahead|
  {
    Front(f.ahead[i].to, f.ahead[..i] + f.ahead[i + 1..])
  }

  /** Take waiting pieces for as long as one starts exactly at the front. */
  function Settled(f: Front): Front
    decreases |f.ahead|
  {
    var i := FirstFrom(f.ahead, f.n);
    if i == |f.ahead| then f else Settled(Taken(f, i))
  }

  /** One piece arrives; nothing is left when it contradicts a waiting piece with the same start. */
  function Arrived(f: Front, p: Piece): Option<Front> {
    if p.from > f.n then
      var i := FirstFrom(f.ahead, p.from);
      if i == |f.ahead| then Some(f.(ahead := f.ahead + [p])) else if f.ahead[i].to == p.to then Some(f) else None
    else if p.to <= f.n then Some(f)
    else Some(Settled(Front(p.to, f.ahead)))
  }

  // ---------------------------------------------------------------- the reassembler follows the front

  function Waits(origin: U32, bytes: Bytes, ahead: seq<Piece>): seq<Pending>
    requires AllWithin(bytes, ahead)
  {
    seq(|ahead|, i requires 0 <= i < |ahead| => Pending(Add32(origin, ahead[i].from), Data(bytes, ahead[i])))
  }

  ghost predicate FrontWithin(bytes: Bytes, f: Front) {
    f.n <= |bytes| < TWO_31 && AllWithin(bytes, f.ahead)
  }

  /** The direction of a stream whose front is `f`. */
  ghost function Image(origin: U32, bytes: Bytes, f: Front): Direction
    requires FrontWithin(bytes, f)
  {
    if f.n == 0 then EMPTY_DIRECTION.(pending := Waits(origin, bytes, f.ahead))
    else Direction(true, origin, Add32(origin, f.n), bytes[..f.n], Waits(origin, bytes, f.ahead))
  }

  lemma SameIndex(origin: U32, bytes: Bytes, ahead: seq<Piece>, n: nat)
    requires AllWithin(bytes, ahead) && n <= |bytes| < TWO_31
    ensures FirstAt(Waits(origin, bytes, ahead), Add32(origin, n)) == FirstFrom(ahead, n)
  {
    var w := Waits(origin, bytes, ahead);
    OffsetOfAdd(origin, n);
    forall i | 0 <= i < |ahead| ensures w[i].sequence == Add32(origin, n) <==> ahead[i].from == n {
      assert Within(bytes, ahead[i]);
      OffsetOfAdd(origin, ahead[i].from);
    }
  }

  lemma TakenImage(origin: U32, bytes: Bytes, f: Front, i: nat)
    requires FrontWithin(bytes, f) && 0 < f.n && i < |f.ahead| && f.ahead[i].from == f.n
    ensures FrontWithin(bytes, Taken(f, i)) && Absorb(Image(origin, bytes, f), i) == Image(origin, bytes, Taken(f, i))
  {
    var p, r := f.ahead[i], Taken(f, i);
    assert Within(bytes, p);
    assert bytes[..f.n] + Data(bytes, p) == bytes[..p.to];
    AddAssociates(origin, p.from, p.to - p.from);
    var w := Waits(origin, bytes, f.ahead);
    assert w[..i] + w[i + 1..] == Waits(origin, bytes, r.ahead);
  }

  lemma {:induction false} SettledImage(limit: nat, origin: U32, bytes: Bytes, f: Front)
    requires FrontWithin(bytes, f) && 0 < f.n && |bytes| <= limit
    ensures FrontWithin(bytes, Settled(f)) && 0 < Settled(f).n
    ensures Drain(limit, Image(origin, bytes, f)) == (Image(origin, bytes, Settled(f)), Ready)
    decreases |f.ahead|
  {
    hide Add32, Absorb;
    SameIndex(origin, bytes, f.ahead, f.n);
    var i := FirstFrom(f.ahead, f.n);
    if i < |f.ahead| {
      TakenImage(origin, bytes, f, i);
      SettledImage(limit, origin, bytes, Taken(f, i));
    }
  }

  lemma AppendImage(config: Config, buffered: nat, origin: U32, bytes: Bytes, f: Front, p: Piece)
    requires FrontWithin(bytes, f) && Within(bytes, p) && p.from == f.n
    requires |bytes| <= config.maxBytesPerDirection && buffered + (p.to - p.from) <= config.budget
    ensures var b := Rebased(Image(origin, bytes, f), Add32(origin, p.from));
            var f' := Settled(Front(p.to, f.ahead));
            && FrontWithin(bytes, f')
            && Append(config, buffered, b, Add32(origin, p.from), Data(bytes, p))
               == Added(Image(origin, bytes, f'), buffered + (p.to - p.from), Ready)
  {
    SettledImage(config.maxBytesPerDirection, origin, bytes, Front(p.to, f.ahead));
    hide Drain, Settled, Waits;
    GrownImage(origin, bytes, f, p);
  }

  lemma GrownImage(origin: U32, bytes: Bytes, f: Front, p: Piece)
    requires FrontWithin(bytes, f) && Within(bytes, p) && p.from == f.n
    ensures var b := Rebased(Image(origin, bytes, f), Add32(origin, p.from));
            b.(contiguous := b.contiguous + Data(bytes, p), next := Add32(Add32(origin, p.from), p.to - p.from))
            == Image(origin, bytes, Front(p.to, f.ahead))
  {
    hide Waits;
    assert Add32(origin, 0) == origin;
    AddAssociates(origin, p.from, p.to - p.from);
    assert bytes[..f.n] + Data(bytes, p) == bytes[..p.to];
  }

  /** No limit is reached by this piece. */
  ghost predicate Spacious(config: Config, buffered: nat, bytes: Bytes, f: Front, p: Piece)
    requires Within(bytes, p)
  {
    && |f.ahead| < config.maxOutOfOrder && |bytes| <= config.maxBytesPerDirection
    && buffered + (p.to - p.from) <= config.budget
  }

  lemma AheadImage(config: Config, buffered: nat, origin: U32, bytes: Bytes, f: Front, p: Piece)
    requires FrontWithin(bytes, f) && Within(bytes, p) && Spacious(config, buffered, bytes, f, p) && p.from > f.n
    requires f.n == 0 ==> !IsStreamStart(Data(bytes, p))
    ensures var f' := Arrived(f, p);
            var a := Add(config, buffered, Image(origin, bytes, f), Add32(origin, p.from), Data(bytes, p));
            && (f'.None? <==> a.status.Fatal())
            && (f'.Some? ==>
                  && FrontWithin(bytes, f'.value) && a.direction == Image(origin, bytes, f'.value)
                  && a.buffered <= buffered + (p.to - p.from))
  {
    var d, sequence, payload := Image(origin, bytes, f), Add32(origin, p.from), Data(bytes, p);
    SameIndex(origin, bytes, f.ahead, p.from);
    TailDistances(origin, bytes, f.n, p.from, p.to);
    AddBeyond(config, buffered, d, sequence, payload);
    hide Add, IsStreamStart, SequenceDistance, Add32;
    var i := FirstFrom(f.ahead, p.from);
    if i < |f.ahead| {
      assert Within(bytes, f.ahead[i]);
      assert |Data(bytes, f.ahead[i])| == |payload| <==> f.ahead[i].to == p.to;
    } else {
      var f' := f.(ahead := f.ahead + [p]);
      assert d.pending + [Pending(sequence, payload)] == Waits(origin, bytes, f'.ahead);
    }
  }

  lemma NoMismatch(config: Config, origin: U32, bytes: Bytes, f: Front, p: Piece)
    requires FrontWithin(bytes, f) && Within(bytes, p) && p.from < f.n
    ensures Overlap(config, Image(origin, bytes, f), Add32(origin, p.from), Data(bytes, p)) == Waiting
  {
    TailDistances(origin, bytes, f.n, p.from, p.to);
    hide SequenceDistance, Add32, Waits;
    var overlap := Min(p.to - p.from, f.n - p.from);
    assert Data(bytes, p)[..overlap] == bytes[p.from..p.from + overlap];
    SliceOfPrefix(bytes, f.n, p.from, p.from + overlap);
  }

  lemma BehindImage(config: Config, buffered: nat, origin: U32, bytes: Bytes, f: Front, p: Piece)
    requires FrontWithin(bytes, f) && Within(bytes, p) && Spacious(config, buffered, bytes, f, p) && p.from < f.n
    ensures var f' := Arrived(f, p);
            var a := Add(config, buffered, Image(origin, bytes, f), Add32(origin, p.from), Data(bytes, p));
            && f'.Some? && !a.status.Fatal() && FrontWithin(bytes, f'.value)
            && a.direction == Image(origin, bytes, f'.value) && a.buffered <= buffered + (p.to - p.from)
  {
    hide SequenceDistance, Add32, IsStreamStart, Settled, Waits, Overlap, Append;
    var d, sequence, payload := Image(origin, bytes, f), Add32(origin, p.from), Data(bytes, p);
    TailDistances(origin, bytes, f.n, p.from, p.to);
    NoMismatch(config, origin, bytes, f, p);
    if f.n < p.to {
      var rest := Piece(f.n, p.to);
      assert payload[f.n - p.from..] == Data(bytes, rest);
      AppendImage(config, buffered, origin, bytes, f, rest);
      assert Add(config, buffered, d, sequence, payload) == Append(config, buffered, d, d.next, Data(bytes, rest));
    }
  }

  /** The front's rules are the reassembler's, arrival by arrival, conflicts included. */
  lemma ArrivedImage(config: Config, buffered: nat, origin: U32, bytes: Bytes, f: Front, p: Piece)
    requires FrontWithin(bytes, f) && Within(bytes, p) && Spacious(config, buffered, bytes, f, p)
    requires IsStreamStart(Data(bytes, p)) <==> p.from == 0
    ensures var f' := Arrived(f, p);
            var a := Add(config, buffered, Image(origin, bytes, f), Add32(origin, p.from), Data(bytes, p));
            && (f'.None? <==> a.status.Fatal())
            && (f'.Some? ==>
                  && FrontWithin(bytes, f'.value) && a.direction == Image(origin, bytes, f'.value)
                  && a.buffered <= buffered + (p.to - p.from))
  {
    hide IsStreamStart, Add, Append, Settled, Waits, Add32;
    if p.from > f.n {
      AheadImage(config, buffered, origin, bytes, f, p);
    } else if p.from < f.n {
      BehindImage(config, buffered, origin, bytes, f, p);
    } else {
      AddAtNext(config, buffered, Image(origin, bytes, f), Add32(origin, p.from), Data(bytes, p));
      AppendImage(config, buffered, origin, bytes, f, p);
    }
  }

  // ---------------------------------------------------------------- whole deliveries

  /** The front after a delivery; it stops at a conflict. */
  function FrontAfter(f: Front, order: seq<Piece>): Front
    decreases |order|
  {
    if order == [] then f
    else
      var f' := Arrived(f, order[0]);
      if f'.None? then f else FrontAfter(f'.value, order[1..])
  }

  const START := Front(0, [])

  /** What one direction holds after a delivery. */
  function AddAll(config: Config, buffered: nat, d: Direction, origin: U32, bytes: Bytes, order: seq<Piece>): Direction
    requires |bytes| < TWO_31 && AllWithin(bytes, order)
    decreases |order|
  {
    if order == [] then d
    else
      var a := Add(config, buffered, d, Add32(origin, order[0].from), Data(bytes, order[0]));
      AddAll(config, a.buffered, a.direction, origin, bytes, order[1..])
  }

  function Volume(order: seq<Piece>): nat {
    if order == [] then 0
    else (if order[0].from < order[0].to then order[0].to - order[0].from else 0) + Volume(order[1..])
  }

  ghost predicate Recognised(bytes: Bytes, order: seq<Piece>)
    requires AllWithin(bytes, order)
  {
    forall i :: 0 <= i < |order| ==> (IsStreamStart(Data(bytes, order[i])) <==> order[i].from == 0)
  }

  /** Pieces that start together end together. */
  ghost predicate Coherent(pieces: seq<Piece>) {
    forall p, q | p in pieces && q in pieces && p.from == q.from :: p.to == q.to
  }

  ghost predicate Known(f: Front, pieces: seq<Piece>) {
    forall p | p in f.ahead :: p in pieces
  }

  lemma {:induction false} SettledKnown(f: Front, pieces: seq<Piece>)
    requires Known(f, pieces)
    ensures Known(Settled(f), pieces) && |Settled(f).ahead| <= |f.ahead|
    decreases |f.ahead|
  {
    var i := FirstFrom(f.ahead, f.n);
    if i < |f.ahead| {
      SettledKnown(Taken(f, i), pieces);
    }
  }

  /** Coherent pieces never conflict. */
  lemma NoConflict(f: Front, p: Piece, pieces: seq<Piece>)
    requires Known(f, pieces) && p in pieces && Coherent(pieces)
    ensures var f' := Arrived(f, p); f'.Some? && Known(f'.value, pieces) && |f'.value.ahead| <= |f.ahead| + 1
  {
    var i := FirstFrom(f.ahead, p.from);
    assert i < |f.ahead| ==> f.ahead[i] in pieces;
    SettledKnown(Front(p.to, f.ahead), pieces);
  }

  /** No limit is reached by a delivery. */
  ghost predicate Unlimited(config: Config, buffered: nat, bytes: Bytes, f: Front, order: seq<Piece>) {
    && |f.ahead| + |order| <= config.maxOutOfOrder && |bytes| <= config.maxBytesPerDirection
    && buffered + Volume(order) <= config.budget
  }

  /** Over a whole delivery one direction inspects exactly the bytes before the front. */
  lemma {:induction false} DeliveryFollowsFront(config: Config, buffered: nat, origin: U32, bytes: Bytes, f: Front,
                                                order: seq<Piece>, pieces: seq<Piece>)
    requires FrontWithin(bytes, f) && AllWithin(bytes, order) && Recognised(bytes, order)
    requires Known(f, pieces) && Coherent(pieces) && forall p | p in order :: p in pieces
    requires Unlimited(config, buffered, bytes, f, order)
    ensures FrontWithin(bytes, FrontAfter(f, order))
    ensures AddAll(config, buffered, Image(origin, bytes, f), origin, bytes, order) ==
            Image(origin, bytes, FrontAfter(f, order))
    decreases |order|
  {
    if order != [] {
      hide Add, IsStreamStart, Arrived, Coherent, Add32, Image;
      var p := order[0];
      ArrivedImage(config, buffered, origin, bytes, f, p);
      NoConflict(f, p, pieces);
      var a := Add(config, buffered, Image(origin, bytes, f), Add32(origin, p.from), Data(bytes, p));
      DeliveryFollowsFront(config, a.buffered, origin, bytes, Arrived(f, p).value, order[1..], pieces);
    }
  }

  // ---------------------------------------------------------------- where a front can stop

  predicate Contains(p: Piece, x: nat) {
    p.from <= x < p.to
  }

  ghost predicate Covered(pieces: seq<Piece>, x: nat) {
    exists p :: p in pieces && Contains(p, x)
  }

  /** The first byte that no piece holds. */
  ghost predicate FirstGap(pieces: seq<Piece>, n: nat) {
    !Covered(pieces, n) && forall x: nat | x < n :: Covered(pieces, x)
  }

  ghost predicate NonEmpty(pieces: seq<Piece>) {
    forall p | p in pieces :: p.from < p.to
  }

  /** Pieces that each begin at or before the end of the one before and reach further. */
  ghost predicate Path(pieces: seq<Piece>, path: seq<Piece>) {
    && path != [] && path[0].from == 0
    && (forall i :: 0 <= i < |path| ==> path[i] in pieces)
    && (forall i :: 0 < i < |path| ==> path[i].from <= path[i - 1].to < path[i].to)
  }

  function End(path: seq<Piece>): nat {
    if path == [] then 0 else path[|path| - 1].to
  }

  /** No piece of the path ends where `p` begins. */
  ghost predicate Misses(path: seq<Piece>, p: Piece) {
    forall i :: 0 <= i < |path| ==> path[i].to != p.from
  }

  /** A path that ends inside other pieces, and has passed the beginning of each of them without stopping there. */
  ghost predicate Bypass(pieces: seq<Piece>, path: seq<Piece>) {
    && Path(pieces, path) && Covered(pieces, End(path))
    && forall p | p in pieces && Contains(p, End(path)) :: p.from != 0 && Misses(path, p)
  }

  ghost predicate Bypassable(pieces: seq<Piece>) {
    exists path :: Bypass(pieces, path)
  }

  lemma {:induction false} PathGrows(pieces: seq<Piece>, path: seq<Piece>, i: nat)
    requires Path(pieces, path) && i < |path|
    ensures path[i].to <= End(path)
    decreases |path| - i
  {
    if i < |path| - 1 {
      PathGrows(pieces, path, i + 1);
    }
  }

  /** The front has come along `path`; a piece seen so far lies behind it or waits, and one that waits was `missed`. */
  ghost predicate Traced(done: seq<Piece>, f: Front, path: seq<Piece>, missed: seq<Piece>) {
    && (path == [] || Path(done, path)) && End(path) == f.n
    && (forall x: nat | x < f.n :: Covered(done, x))
    && Known(f, done) && (forall p | p in f.ahead :: p.from > 0)
    && forall p | p in done :: p.to <= f.n || (p in f.ahead && Misses(missed, p))
  }

  lemma CoveredMore(done: seq<Piece>, n: nat, q: Piece)
    requires q in done && q.from <= n && forall x: nat | x < n :: Covered(done, x)
    ensures forall x: nat | x < q.to :: Covered(done, x)
  {
    forall x: nat | x < q.to ensures Covered(done, x) {
      if x >= n {
        assert Contains(q, x);
      }
    }
  }

  lemma MissesNext(path: seq<Piece>, q: Piece, p: Piece)
    requires Misses(path, p) && q.to != p.from
    ensures Misses(path + [q], p)
  {}

  /** Following the path one piece further. */
  lemma PathOn(done: seq<Piece>, path: seq<Piece>, q: Piece)
    requires path == [] || Path(done, path)
    requires q in done && q.from <= End(path) < q.to
    ensures Path(done, path + [q]) && End(path + [q]) == q.to
  {}

  lemma {:induction false} SettlingTraced(done: seq<Piece>, f: Front, path: seq<Piece>) returns (path': seq<Piece>)
    requires Coherent(done) && NonEmpty(done) && path != [] && Traced(done, f, path, path[..|path| - 1])
    ensures Traced(done, Settled(f), path', path')
    decreases |f.ahead|
  {
    var i := FirstFrom(f.ahead, f.n);
    if i == |f.ahead| {
      path' := path;
      forall p | p in done && p in f.ahead && Misses(path[..|path| - 1], p) ensures Misses(path, p) {
        MissesNext(path[..|path| - 1], path[|path| - 1], p);
        assert path == path[..|path| - 1] + [path[|path| - 1]];
      }
    } else {
      TakenTraced(done, f, path, i);
      path' := SettlingTraced(done, Taken(f, i), path + [f.ahead[i]]);
    }
  }

  lemma TakenTraced(done: seq<Piece>, f: Front, path: seq<Piece>, i: nat)
    requires Coherent(done) && NonEmpty(done) && path != [] && Traced(done, f, path, path[..|path| - 1])
    requires i < |f.ahead| && f.ahead[i].from == f.n
    ensures var path' := path + [f.ahead[i]]; Traced(done, Taken(f, i), path', path'[..|path'| - 1])
  {
    var q, f' := f.ahead[i], Taken(f, i);
    var path' := path + [q];
    assert q in f.ahead && q in done && q.from < q.to;
    assert path'[..|path'| - 1] == path;
    PathOn(done, path, q);
    CoveredMore(done, f.n, q);
    forall p | p in done ensures p.to <= f'.n || (p in f'.ahead && Misses(path, p)) {
      if p.to > q.to {
        assert p in f.ahead && p != q && p.from != f.n;
        var k :| 0 <= k < |f.ahead| && f.ahead[k] == p;
        assert if k < i then f'.ahead[k] == p else f'.ahead[k - 1] == p;
        MissesNext(path[..|path| - 1], path[|path| - 1], p);
        assert path == path[..|path| - 1] + [path[|path| - 1]];
      }
    }
  }

  lemma AheadTraced(done: seq<Piece>, f: Front, path: seq<Piece>, p: Piece)
    requires Coherent(done + [p]) && Traced(done, f, path, path) && p.from > f.n
    ensures Arrived(f, p).Some? && Traced(done + [p], Arrived(f, p).value, path, path)
  {
    var done' := done + [p];
    assert p in done' && forall q | q in done :: q in done';
    MoreCovered(done, p, f.n);
    hide Covered;
    forall k | 0 <= k < |path| ensures path[k].to != p.from {
      PathGrows(done, path, k);
    }
    var i := FirstFrom(f.ahead, p.from);
    if i < |f.ahead| {
      assert f.ahead[i] in f.ahead && f.ahead[i] == p;
    }
    hide Coherent, Misses;
    assert path == [] || Path(done', path);
  }

  lemma AdvanceTraced(done: seq<Piece>, f: Front, path: seq<Piece>, p: Piece)
    requires Traced(done, f, path, path) && p.from <= f.n < p.to
    ensures Traced(done + [p], Front(p.to, f.ahead), path + [p], path)
  {
    var done' := done + [p];
    assert p in done' && forall q | q in done :: q in done';
    MoreCovered(done, p, f.n);
    CoveredMore(done', f.n, p);
    PathOn(done', path, p);
    hide Covered, Misses;
  }

  lemma ArrivedTraced(done: seq<Piece>, f: Front, path: seq<Piece>, p: Piece) returns (path': seq<Piece>)
    requires Coherent(done + [p]) && NonEmpty(done + [p]) && Traced(done, f, path, path)
    ensures Arrived(f, p).Some? && Traced(done + [p], Arrived(f, p).value, path', path')
  {
    path' := path;
    if p.from > f.n {
      AheadTraced(done, f, path, p);
    } else if p.to > f.n {
      AdvanceTraced(done, f, path, p);
      assert (path + [p])[..|path + [p]| - 1] == path;
      hide Traced;
      path' := SettlingTraced(done + [p], Front(p.to, f.ahead), path + [p]);
    } else {
      MoreCovered(done, p, f.n);
      assert forall q | q in done :: q in done + [p];
      assert path == [] || Path(done + [p], path);
      hide Covered, Misses;
    }
  }

  lemma MoreCovered(done: seq<Piece>, p: Piece, n: nat)
    requires forall x: nat | x < n :: Covered(done, x)
    ensures forall x: nat | x < n :: Covered(done + [p], x)
  {
    forall x: nat | x < n ensures Covered(done + [p], x) {
      assert Covered(done, x);
      var q :| q in done && Contains(q, x);
      assert q in done + [p];
    }
  }

  lemma {:induction false} DeliveryTraced(done: seq<Piece>, f: Front, path: seq<Piece>, order: seq<Piece>)
    returns (path': seq<Piece>)
    requires Coherent(done + order) && NonEmpty(done + order) && Traced(done, f, path, path)
    ensures Traced(done + order, FrontAfter(f, order), path', path')
    decreases |order|
  {
    if order == [] {
      assert done + order == done;
      path' := path;
    } else {
      assert done + [order[0]] + order[1..] == done + order;
      assert forall p | p in done + [order[0]] :: p in done + order;
      hide Traced, Arrived;
      var next := ArrivedTraced(done, f, path, order[0]);
      path' := DeliveryTraced(done + [order[0]], Arrived(f, order[0]).value, next, order[1..]);
    }
  }

  /** A delivery of exactly these pieces, in any order and with any repetitions. */
  ghost predicate Delivers(pieces: seq<Piece>, order: seq<Piece>) {
    forall p :: p in order <==> p in pieces
  }

  /** A front that has stopped before the first gap has bypassed something. */
  lemma StoppedEarly(pieces: seq<Piece>, order: seq<Piece>)
    requires Coherent(pieces) && NonEmpty(pieces) && Delivers(pieces, order)
    ensures FirstGap(pieces, FrontAfter(START, order).n) || Bypassable(pieces)
  {
    hide FrontAfter, Misses;
    assert [] + order == order;
    assert Traced([], START, [], []);
    var path := DeliveryTraced([], START, [], order);
    var n := FrontAfter(START, order).n;
    assert forall x: nat | x < n :: Covered(pieces, x) by { SameCover(pieces, order, n); }
    if Covered(pieces, n) {
      assert Bypass(pieces, path);
    }
  }

  lemma SameCover(pieces: seq<Piece>, order: seq<Piece>, n: nat)
    requires Delivers(pieces, order) && forall x: nat | x < n :: Covered(order, x)
    ensures forall x: nat | x < n :: Covered(pieces, x)
  {
    forall x: nat | x < n ensures Covered(pieces, x) {
      assert Covered(order, x);
      var p :| p in order && Contains(p, x);
    }
  }

  // ---------------------------------------------------------------- and where it does

  function Select(pieces: seq<Piece>, x: nat, inside: bool): seq<Piece> {
    if pieces == [] then []
    else (if Contains(pieces[0], x) == inside then [pieces[0]] else []) + Select(pieces[1..], x, inside)
  }

  lemma {:induction false} Selected(pieces: seq<Piece>, x: nat, inside: bool, p: Piece)
    ensures p in Select(pieces, x, inside) <==> p in pieces && Contains(p, x) == inside
  {
    if pieces != [] {
      Selected(pieces[1..], x, inside, p);
      assert pieces == [pieces[0]] + pieces[1..];
    }
  }

  /** Before the start of the stream every piece waits. */
  lemma {:induction false} AllWait(f: Front, first: seq<Piece>, rest: seq<Piece>, pieces: seq<Piece>)
    returns (f': Front)
    requires f.n == 0 && Known(f, pieces) && Coherent(pieces)
    requires forall p | p in first :: p in pieces && p.from > 0
    ensures f'.n == 0 && FrontAfter(f, first + rest) == FrontAfter(f', rest)
    ensures forall p | p in f'.ahead :: p in f.ahead || p in first
    decreases |first|
  {
    if first == [] {
      assert first + rest == rest;
      f' := f;
    } else {
      assert (first + rest)[1..] == first[1..] + rest;
      NoConflict(f, first[0], pieces);
      hide Coherent;
      f' := AllWait(Arrived(f, first[0]).value, first[1..], rest, pieces);
    }
  }

  /** The pieces of the path come one by one and meet no waiting piece. */
  lemma {:induction false} WalksAlong(f: Front, path: seq<Piece>, k: nat, rest: seq<Piece>, pieces: seq<Piece>)
    requires Path(pieces, path) && NonEmpty(pieces) && k <= |path| && f.n == End(path[..k])
    requires forall p | p in f.ahead :: Misses(path, p)
    ensures FrontAfter(f, path[k..] + rest) == FrontAfter(f.(n := End(path)), rest)
    decreases |path| - k
  {
    if k == |path| {
      assert path[k..] + rest == rest && path[..k] == path;
    } else {
      WalksOn(f, path, k, pieces);
      assert (path[k..] + rest)[0] == path[k] && (path[k..] + rest)[1..] == path[k + 1..] + rest;
      assert End(path[..k + 1]) == path[k].to;
      hide Misses, Path, Arrived;
      WalksAlong(f.(n := path[k].to), path, k + 1, rest, pieces);
    }
  }

  lemma WalksOn(f: Front, path: seq<Piece>, k: nat, pieces: seq<Piece>)
    requires Path(pieces, path) && NonEmpty(pieces) && k < |path| && f.n == End(path[..k])
    requires forall p | p in f.ahead :: Misses(path, p)
    ensures Arrived(f, path[k]) == Some(f.(n := path[k].to))
  {
    var p := path[k];
    assert p in pieces;
    assert p.from <= f.n < p.to;
    assert forall q | q in f.ahead && Misses(path, q) :: q.from != p.to;
    assert FirstFrom(f.ahead, p.to) == |f.ahead|;
  }

  /** What neither contains the front nor begins at it moves nothing. */
  lemma {:induction false} RestMovesNothing(f: Front, rest: seq<Piece>)
    requires forall p | p in rest :: !Contains(p, f.n)
    ensures FrontAfter(f, rest).n == f.n
    decreases |rest|
  {
    if rest != [] && Arrived(f, rest[0]).Some? {
      assert rest[0] in rest;
      RestMovesNothing(Arrived(f, rest[0]).value, rest[1..]);
    }
  }

  /** An order in which the front stops at the end of a bypassing path. */
  lemma StopsThere(pieces: seq<Piece>, path: seq<Piece>) returns (order: seq<Piece>)
    requires Coherent(pieces) && NonEmpty(pieces) && Bypass(pieces, path)
    ensures Delivers(pieces, order) && FrontAfter(START, order).n == End(path)
  {
    var x := End(path);
    var first, rest := Select(pieces, x, true), Select(pieces, x, false);
    order := first + (path + rest);
    forall p ensures p in first <==> p in pieces && Contains(p, x)
             ensures p in rest <==> p in pieces && !Contains(p, x)
    {
      Selected(pieces, x, true, p);
      Selected(pieces, x, false, p);
    }
    forall p ensures p in order <==> p in pieces {
      assert p in order <==> p in first || p in path || p in rest;
    }
    hide Select;
    var f := AllWait(START, first, path + rest, pieces);
    assert path[0..] == path;
    WalksAlong(f, path, 0, rest, pieces);
    RestMovesNothing(f.(n := x), rest);
  }

  /** Exactly when the order of overlapping pieces does not matter: every delivery of them, in any order and with any
      repetitions, brings the front to the first byte that no piece holds, if and only if no path over the pieces ends
      inside others whose beginnings it has jumped over. */
  lemma FrontOrderFreeIff(pieces: seq<Piece>)
    requires Coherent(pieces) && NonEmpty(pieces)
    ensures (forall order | Delivers(pieces, order) :: FirstGap(pieces, FrontAfter(START, order).n))
            <==> !Bypassable(pieces)
  {
    hide Coherent, NonEmpty, Delivers, Bypass, FrontAfter;
    if path :| Bypass(pieces, path) {
      var order := StopsThere(pieces, path);
      assert Covered(pieces, End(path)) by { BypassCovered(pieces, path); }
    } else {
      forall order | Delivers(pieces, order) ensures FirstGap(pieces, FrontAfter(START, order).n) {
        StoppedEarly(pieces, order);
      }
    }
  }

  lemma BypassCovered(pieces: seq<Piece>, path: seq<Piece>)
    requires Bypass(pieces, path)
    ensures Covered(pieces, End(path))
  {}

  /** No piece begins inside another and ends outside of it. */
  ghost predicate Laminar(pieces: seq<Piece>) {
    forall p, q | p in pieces && q in pieces :: !(q.from < p.from < q.to < p.to)
  }

  /** Without straddling pieces nothing can be bypassed; nested and repeated ones do no harm. */
  lemma LaminarIsOrderFree(pieces: seq<Piece>)
    requires Laminar(pieces)
    ensures !Bypassable(pieces)
  {
    if path :| Bypass(pieces, path) {
      var p :| p in pieces && Contains(p, End(path));
      var _ := Crossing(pieces, path, p, |path| - 1);
    }
  }

  /** The piece of a path that jumps over the beginning of `p`. */
  lemma {:induction false} Crossing(pieces: seq<Piece>, path: seq<Piece>, p: Piece, k: nat) returns (q: Piece)
    requires Path(pieces, path) && Misses(path, p) && 0 < p.from && k < |path| && p.from <= path[k].to
    ensures q in pieces && q.from < p.from < q.to <= End(path)
  {
    assert path[k].to != p.from;
    if path[k].from < p.from {
      q := path[k];
      PathGrows(pieces, path, k);
    } else {
      q := Crossing(pieces, path, p, k - 1);
    }
  }

  /** The smallest case: the start `[..a]` of a stream and a later piece `[b..e]`. The piece can be bypassed exactly
      when it straddles the end of the start. If it arrives first it is queued, and never used: the drain only takes
      segments that begin at the next expected byte. */
  lemma TwoPiecesBypassIff(a: nat, b: nat, e: nat)
    requires 0 < a && 0 < b < e
    ensures Bypassable([Piece(0, a), Piece(b, e)]) <==> b < a < e
  {
    var s, p := Piece(0, a), Piece(b, e);
    if b < a < e {
      assert Contains(p, End([s]));
      assert Bypass([s, p], [s]);
    } else {
      LaminarIsOrderFree([s, p]);
    }
  }

  // ---------------------------------------------------------------- for the reassembler

  ghost function Inspected(config: Config, origin: U32, bytes: Bytes, order: seq<Piece>): Bytes
    requires |bytes| < TWO_31 && AllWithin(bytes, order)
  {
    AddAll(config, 0, EMPTY_DIRECTION, origin, bytes, order).contiguous
  }

  lemma InspectedIsFront(config: Config, origin: U32, bytes: Bytes, order: seq<Piece>)
    requires |bytes| < TWO_31 && AllWithin(bytes, order) && Recognised(bytes, order) && Coherent(order)
    requires Unlimited(config, 0, bytes, START, order)
    ensures FrontAfter(START, order).n <= |bytes|
    ensures Inspected(config, origin, bytes, order) == bytes[..FrontAfter(START, order).n]
  {
    assert Image(origin, bytes, START) == EMPTY_DIRECTION;
    DeliveryFollowsFront(config, 0, origin, bytes, START, order, order);
    hide FrontAfter, AddAll;
  }

  /** The pieces of one stream that are delivered: cut from its bytes, coherent, and only the start looks like
      a start. */
  ghost predicate Sliced(bytes: Bytes, pieces: seq<Piece>) {
    |bytes| < TWO_31 && AllWithin(bytes, pieces) && Recognised(bytes, pieces) && Coherent(pieces)
  }

  lemma DeliverySliced(bytes: Bytes, pieces: seq<Piece>, order: seq<Piece>)
    requires Sliced(bytes, pieces) && Delivers(pieces, order)
    ensures Sliced(bytes, order) && NonEmpty(pieces)
  {
    hide IsStreamStart, Data;
    forall i | 0 <= i < |order|
      ensures Within(bytes, order[i]) && (IsStreamStart(Data(bytes, order[i])) <==> order[i].from == 0)
    {
      assert order[i] in order;
      var k :| 0 <= k < |pieces| && pieces[k] == order[i];
      assert Within(bytes, pieces[k]);
    }
    forall p | p in pieces ensures p.from < p.to {
      var k :| 0 <= k < |pieces| && pieces[k] == p;
      assert Within(bytes, pieces[k]);
    }
  }

  /** Reassembly of overlapping pieces, over every delivery that stays within the limits: everything up to the first
      missing byte is inspected in the end, whatever the order, if and only if nothing can be bypassed. */
  lemma OverlapsReassembleIff(origin: U32, bytes: Bytes, pieces: seq<Piece>, gap: nat)
    requires Sliced(bytes, pieces) && FirstGap(pieces, gap) && gap <= |bytes|
    ensures (forall config, order | Delivers(pieces, order) && Unlimited(config, 0, bytes, START, order) ::
               Sliced(bytes, order) && Inspected(config, origin, bytes, order) == bytes[..gap])
            <==> !Bypassable(pieces)
  {
    DeliverySliced(bytes, pieces, pieces);
    FrontOrderFreeIff(pieces);
    hide Bypassable, FrontAfter, Inspected, FirstGap, Coherent, Recognised;
    forall config, order | Delivers(pieces, order) && Unlimited(config, 0, bytes, START, order)
      ensures Sliced(bytes, order) && FrontAfter(START, order).n <= |bytes|
      ensures Inspected(config, origin, bytes, order) == bytes[..gap] <==> FirstGap(pieces, FrontAfter(START, order).n)
    {
      DeliverySliced(bytes, pieces, order);
      InspectedIsFront(config, origin, bytes, order);
      OneGap(pieces, gap, FrontAfter(START, order).n);
    }
    if Bypassable(pieces) {
      var order :| Delivers(pieces, order) && !FirstGap(pieces, FrontAfter(START, order).n);
      var config := Config(true, 0, 1, |bytes|, |order|, Volume(order), true);
      assert Unlimited(config, 0, bytes, START, order);
    }
  }

  lemma OneGap(pieces: seq<Piece>, a: nat, b: nat)
    requires FirstGap(pieces, a)
    ensures FirstGap(pieces, b) <==> a == b
  {
    hide Covered;
  }
}
