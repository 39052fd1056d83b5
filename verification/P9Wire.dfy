/** The 9P request format: the guest's builders (boot/kernel/p9.c) and the server's parsers
    (devices/p9fs/trequests.cpp). */
module P9Wire {
  import opened Words

  const P9_TVERSION := 100
  const P9_TAUTH := 102
  const P9_TATTACH := 104
  const P9_TFLUSH := 108
  const P9_TWALK := 110
  const P9_TOPEN := 112
  const P9_TCREATE := 114
  const P9_TREAD := 116
  const P9_TWRITE := 118
  const P9_TCLUNK := 120
  const P9_TREMOVE := 122
  const P9_TSTAT := 124
  const P9_TWSTAT := 126

  const REQUEST_TYPES := {P9_TVERSION, P9_TAUTH, P9_TATTACH, P9_TFLUSH, P9_TWALK, P9_TOPEN, P9_TCREATE,
                          P9_TREAD, P9_TWRITE, P9_TCLUNK, P9_TREMOVE, P9_TSTAT, P9_TWSTAT}

  type Bytes = seq<Byte>

  datatype Request =
    | TVersion(msize: nat, version: Bytes)
    | TAuth(afid: nat, uname: Bytes, aname: Bytes)
    | TFlush(oldtag: nat)
    | TAttach(fid: nat, afid: nat, uname: Bytes, aname: Bytes)
    | TWalk(fid: nat, newfid: nat, names: seq<Bytes>)
    | TOpen(fid: nat, mode: nat)
    | TCreate(fid: nat, name: Bytes, perm: nat, mode: nat)
    | TRead(fid: nat, offset: nat, count: nat)
    | TWrite(fid: nat, offset: nat, data: Bytes)
    | TClunk(fid: nat)
    | TRemove(fid: nat)
    | TStat(fid: nat)
    | TWstat(fid: nat, stat: Bytes)

  /** The parser's exception, a read past the received bytes, or a type no request has. */
  datatype ParseError = Short | Overrun | UnknownType

  // ------------------------------------------------------------------ values

  /** `2^(8 w)`, the number of values of a `w`-byte field. */
  function Range(w: nat): (r: nat)
    ensures r > 0
  {
    if w == 0 then 1 else 256 * Range(w - 1)
  }

  function Le(v: nat, w: nat): (b: Bytes)
    ensures |b| == w
  {
    if w == 0 then [] else [v % 256] + Le(v / 256, w - 1)
  }

  function FromLe(b: Bytes): (v: nat)
    ensures v < Range(|b|)
  {
    if b == [] then 0 else b[0] + 256 * FromLe(b[1..])
  }

  lemma {:induction false} LeRoundTrip(v: nat, w: nat)
    requires v < Range(w)
    ensures FromLe(Le(v, w)) == v
  {
    if w > 0 {
      LeRoundTrip(v / 256, w - 1);
      assert Le(v, w)[1..] == Le(v / 256, w - 1);
    }
  }

  /** Byte k is the k-th digit to the base 256, the least significant first. */
  lemma {:induction false} LeDigits(v: nat, w: nat, k: nat)
    requires k < w
    ensures Le(v, w)[k] == v / Range(k) % 256
    decreases k
  {
    if k > 0 {
      LeDigits(v / 256, w - 1, k - 1);
      QuotientOfQuotient(v, 256, Range(k - 1));
    }
  }

  lemma {:induction false} FromLeRoundTrip(b: Bytes)
    ensures Le(FromLe(b), |b|) == b
  {
    if b != [] {
      FromLeRoundTrip(b[1..]);
      assert FromLe(b) % 256 == b[0] && FromLe(b) / 256 == FromLe(b[1..]);
    }
  }

  // ---------------------------------------------------------------- formats

  /** How one field travels: a `w`-byte integer, a `w`-byte count with that many bytes, or a two-byte
      count with that many strings. */
  datatype Kind = Val(w: nat) | Cnt(w: nat) | Names

  datatype Field = V(v: nat) | B(b: Bytes) | Ns(ss: seq<Bytes>)

  /** The fields of each message body, in wire order. */
  function Format(kind: nat): seq<Kind> {
    if kind == P9_TVERSION then [Val(4), Cnt(2)]
    else if kind == P9_TAUTH then [Val(4), Cnt(2), Cnt(2)]
    else if kind == P9_TATTACH then [Val(4), Val(4), Cnt(2), Cnt(2)]
    else if kind == P9_TWALK then [Val(4), Val(4), Names]
    else if kind == P9_TOPEN then [Val(4), Val(1)]
    else if kind == P9_TCREATE then [Val(4), Cnt(2), Val(4), Val(1)]
    else if kind == P9_TREAD then [Val(4), Val(8), Val(4)]
    else if kind == P9_TWRITE then [Val(4), Val(8), Cnt(4)]
    else if kind == P9_TWSTAT then [Val(4), Cnt(2)]
    else [Val(4)]
  }

  predicate Matches(f: Field, k: Kind) {
    match k
    case Val(_) => f.V?
    case Cnt(_) => f.B?
    case Names => f.Ns?
  }

  predicate Shaped(fs: seq<Field>, ks: seq<Kind>) {
    |fs| == |ks| && forall i :: 0 <= i < |ks| ==> Matches(fs[i], ks[i])
  }

  function TypeOf(r: Request): (kind: nat)
    ensures kind in REQUEST_TYPES
  {
    match r
    case TVersion(_, _) => P9_TVERSION
    case TAuth(_, _, _) => P9_TAUTH
    case TFlush(_) => P9_TFLUSH
    case TAttach(_, _, _, _) => P9_TATTACH
    case TWalk(_, _, _) => P9_TWALK
    case TOpen(_, _) => P9_TOPEN
    case TCreate(_, _, _, _) => P9_TCREATE
    case TRead(_, _, _) => P9_TREAD
    case TWrite(_, _, _) => P9_TWRITE
    case TClunk(_) => P9_TCLUNK
    case TRemove(_) => P9_TREMOVE
    case TStat(_) => P9_TSTAT
    case TWstat(_, _) => P9_TWSTAT
  }

  function Fields(r: Request): (fs: seq<Field>)
    ensures Shaped(fs, Format(TypeOf(r)))
  {
    match r
    case TVersion(msize, version) => [V(msize), B(version)]
    case TAuth(afid, uname, aname) => [V(afid), B(uname), B(aname)]
    case TFlush(oldtag) => [V(oldtag)]
    case TAttach(fid, afid, uname, aname) => [V(fid), V(afid), B(uname), B(aname)]
    case TWalk(fid, newfid, names) => [V(fid), V(newfid), Ns(names)]
    case TOpen(fid, mode) => [V(fid), V(mode)]
    case TCreate(fid, name, perm, mode) => [V(fid), B(name), V(perm), V(mode)]
    case TRead(fid, offset, count) => [V(fid), V(offset), V(count)]
    case TWrite(fid, offset, data) => [V(fid), V(offset), B(data)]
    case TClunk(fid) => [V(fid)]
    case TRemove(fid) => [V(fid)]
    case TStat(fid) => [V(fid)]
    case TWstat(fid, stat) => [V(fid), B(stat)]
  }

  function MakeRequest(kind: nat, fs: seq<Field>): Request
    requires kind in REQUEST_TYPES && Shaped(fs, Format(kind))
  {
    assert Matches(fs[0], Format(kind)[0]);
    assert |fs| > 1 ==> Matches(fs[1], Format(kind)[1]);
    assert |fs| > 2 ==> Matches(fs[2], Format(kind)[2]);
    assert |fs| > 3 ==> Matches(fs[3], Format(kind)[3]);
    if kind == P9_TVERSION then TVersion(fs[0].v, fs[1].b)
    else if kind == P9_TAUTH then TAuth(fs[0].v, fs[1].b, fs[2].b)
    else if kind == P9_TFLUSH then TFlush(fs[0].v)
    else if kind == P9_TATTACH then TAttach(fs[0].v, fs[1].v, fs[2].b, fs[3].b)
    else if kind == P9_TWALK then TWalk(fs[0].v, fs[1].v, fs[2].ss)
    else if kind == P9_TOPEN then TOpen(fs[0].v, fs[1].v)
    else if kind == P9_TCREATE then TCreate(fs[0].v, fs[1].b, fs[2].v, fs[3].v)
    else if kind == P9_TREAD then TRead(fs[0].v, fs[1].v, fs[2].v)
    else if kind == P9_TWRITE then TWrite(fs[0].v, fs[1].v, fs[2].b)
    else if kind == P9_TCLUNK then TClunk(fs[0].v)
    else if kind == P9_TREMOVE then TRemove(fs[0].v)
    else if kind == P9_TSTAT then TStat(fs[0].v)
    else TWstat(fs[0].v, fs[1].b)
  }

  lemma RequestOfFields(r: Request)
    ensures MakeRequest(TypeOf(r), Fields(r)) == r
  {
  }

  lemma FieldsOfRequest(kind: nat, fs: seq<Field>)
    requires kind in REQUEST_TYPES && Shaped(fs, Format(kind))
    ensures TypeOf(MakeRequest(kind, fs)) == kind && Fields(MakeRequest(kind, fs)) == fs
  {
    assert Matches(fs[0], Format(kind)[0]);
    assert |fs| > 1 ==> Matches(fs[1], Format(kind)[1]);
    assert |fs| > 2 ==> Matches(fs[2], Format(kind)[2]);
    assert |fs| > 3 ==> Matches(fs[3], Format(kind)[3]);
  }

  // ---------------------------------------------------------------- encoding

  function Counted(s: Bytes, w: nat): Bytes {
    Le(|s|, w) + s
  }

  function Strs(ss: seq<Bytes>): Bytes {
    if ss == [] then [] else Counted(ss[0], 2) + Strs(ss[1..])
  }

  predicate AllStrsFit(ss: seq<Bytes>) {
    forall i :: 0 <= i < |ss| ==> |ss[i]| < Range(2)
  }

  predicate FieldFits(f: Field, k: Kind) {
    && Matches(f, k)
    && match k
       case Val(w) => f.v < Range(w)
       case Cnt(w) => |f.b| < Range(w)
       case Names => |f.ss| < Range(2) && AllStrsFit(f.ss)
  }

  function EncodeField(f: Field, k: Kind): Bytes
    requires Matches(f, k)
  {
    match k
    case Val(w) => Le(f.v, w)
    case Cnt(w) => Counted(f.b, w)
    case Names => Le(|f.ss|, 2) + Strs(f.ss)
  }

  function EncodeFields(fs: seq<Field>, ks: seq<Kind>): Bytes
    requires Shaped(fs, ks)
  {
    if fs == [] then [] else EncodeField(fs[0], ks[0]) + EncodeFields(fs[1..], ks[1..])
  }

  predicate FieldsFit(fs: seq<Field>, ks: seq<Kind>) {
    |fs| == |ks| && forall i :: 0 <= i < |ks| ==> FieldFits(fs[i], ks[i])
  }

  function Body(r: Request): Bytes {
    EncodeFields(Fields(r), Format(TypeOf(r)))
  }

  /** Integers within their widths, strings and payloads within their counts, at most 65535 names. */
  predicate Fits(r: Request) {
    FieldsFit(Fields(r), Format(TypeOf(r)))
  }

  // ----------------------------------------------------------------- parsing

  /** What is left to parse: the bytes in the buffer, and how many of them the message claims. The
      claim may exceed the body, because the server passes the packet size. */
  datatype Cursor = Cursor(rest: Bytes, size: nat)

  type Parse<T> = Result<(T, Cursor), ParseError>

  /** The READ macro. */
  function ReadBytes(c: Cursor, l: nat): Parse<Bytes> {
    if c.size < l then Err(Short)
    else if |c.rest| < l then Err(Overrun)
    else Ok((c.rest[..l], Cursor(c.rest[l..], c.size - l)))
  }

  function ReadVal(c: Cursor, w: nat): Parse<nat> {
    var (b, c1) :- ReadBytes(c, w);
    Ok((FromLe(b), c1))
  }

  /** `w`-byte count, then that many bytes: READSTR with two, a TWRITE payload with four. */
  function ReadCounted(c: Cursor, w: nat): Parse<Bytes> {
    var (l, c1) :- ReadVal(c, w);
    ReadBytes(c1, l)
  }

  function ReadStrs(c: Cursor, n: nat): Parse<seq<Bytes>>
    decreases n
  {
    if n == 0 then Ok(([], c))
    else
      var (s, c1) :- ReadCounted(c, 2);
      var (ss, c2) :- ReadStrs(c1, n - 1);
      Ok(([s] + ss, c2))
  }

  function ReadNames(c: Cursor): Parse<seq<Bytes>> {
    var (n, c1) :- ReadVal(c, 2);
    ReadStrs(c1, n)
  }

  function ReadField(c: Cursor, k: Kind): (r: Parse<Field>)
    ensures r.Ok? ==> Matches(r.value.0, k)
  {
    match k
    case Val(w) => var (v, c1) :- ReadVal(c, w); Ok((V(v), c1))
    case Cnt(w) => var (b, c1) :- ReadCounted(c, w); Ok((B(b), c1))
    case Names => var (ss, c1) :- ReadNames(c); Ok((Ns(ss), c1))
  }

  function ReadFields(c: Cursor, ks: seq<Kind>): (r: Parse<seq<Field>>)
    ensures r.Ok? ==> Shaped(r.value.0, ks)
    decreases |ks|
  {
    if ks == [] then Ok(([], c))
    else
      var (f, c1) :- ReadField(c, ks[0]);
      var (fs, c2) :- ReadFields(c1, ks[1..]);
      Ok(([f] + fs, c2))
  }

  /** The constructors of the request classes, chosen by message type. */
  function ParseBody(kind: nat, c: Cursor): Parse<Request> {
    if kind !in REQUEST_TYPES then Err(UnknownType)
    else
      var (fs, c') :- ReadFields(c, Format(kind));
      Ok((MakeRequest(kind, fs), c'))
  }

  // ------------------------------------------------------------- exactness

  /** `e` is exactly what was consumed between two cursors. */
  predicate Consumed(c: Cursor, e: Bytes, c': Cursor) {
    c.rest == e + c'.rest && c.size == |e| + c'.size
  }

  lemma ReadBytesExact(c: Cursor, l: nat, b: Bytes, c': Cursor)
    ensures ReadBytes(c, l) == Ok((b, c')) <==> |b| == l && Consumed(c, b, c')
  {
    if ReadBytes(c, l).Ok? {
      assert c.rest == c.rest[..l] + c.rest[l..];
    }
    if |b| == l && Consumed(c, b, c') {
      assert c.rest[..l] == b && c.rest[l..] == c'.rest;
    }
  }

  lemma ReadValExact(c: Cursor, w: nat, v: nat, c': Cursor)
    ensures ReadVal(c, w) == Ok((v, c')) <==> v < Range(w) && Consumed(c, Le(v, w), c')
  {
    if ReadVal(c, w) == Ok((v, c')) {
      var b := ReadBytes(c, w).value.0;
      ReadBytesExact(c, w, b, c');
      FromLeRoundTrip(b);
    }
    if v < Range(w) && Consumed(c, Le(v, w), c') {
      ReadBytesExact(c, w, Le(v, w), c');
      LeRoundTrip(v, w);
    }
  }

  lemma Chain(c: Cursor, a: Bytes, m: Cursor, b: Bytes, c': Cursor)
    requires Consumed(c, a, m) && Consumed(m, b, c')
    ensures Consumed(c, a + b, c')
  {
    assert c.rest == (a + b) + c'.rest;
  }

  lemma Split(c: Cursor, a: Bytes, b: Bytes, c': Cursor) returns (m: Cursor)
    requires Consumed(c, a + b, c')
    ensures Consumed(c, a, m) && Consumed(m, b, c')
  {
    m := Cursor(b + c'.rest, |b| + c'.size);
    assert c.rest == a + m.rest;
  }

  lemma CountedExact(c: Cursor, w: nat, s: Bytes, c': Cursor)
    ensures ReadCounted(c, w) == Ok((s, c')) <==> |s| < Range(w) && Consumed(c, Counted(s, w), c')
  {
    if ReadCounted(c, w) == Ok((s, c')) {
      var (l, m) := ReadVal(c, w).value;
      ReadValExact(c, w, l, m);
      ReadBytesExact(m, l, s, c');
      Chain(c, Le(l, w), m, s, c');
    }
    if |s| < Range(w) && Consumed(c, Counted(s, w), c') {
      var m := Split(c, Le(|s|, w), s, c');
      ReadValExact(c, w, |s|, m);
      ReadBytesExact(m, |s|, s, c');
    }
  }

  lemma {:induction false} StrsParsed(c: Cursor, n: nat)
    requires ReadStrs(c, n).Ok?
    ensures var (ss, c') := ReadStrs(c, n).value;
            |ss| == n && AllStrsFit(ss) && Consumed(c, Strs(ss), c')
    decreases n
  {
    hide ReadCounted, Counted, Range;
    var (ss, c') := ReadStrs(c, n).value;
    if n == 0 {
      assert [] + c'.rest == c'.rest;
    } else {
      var (s, m) := ReadCounted(c, 2).value;
      assert |s| < Range(2) && Consumed(c, Counted(s, 2), m) by {
        CountedExact(c, 2, s, m);
      }
      StrsParsed(m, n - 1);
      assert ss[1..] == ReadStrs(m, n - 1).value.0;
      Chain(c, Counted(s, 2), m, Strs(ss[1..]), c');
    }
  }

  lemma {:induction false} StrsEncoded(c: Cursor, ss: seq<Bytes>, c': Cursor)
    requires AllStrsFit(ss) && Consumed(c, Strs(ss), c')
    ensures ReadStrs(c, |ss|) == Ok((ss, c'))
    decreases |ss|
  {
    hide ReadCounted, Counted, Range;
    if ss == [] {
      assert [] + c'.rest == c'.rest;
    } else {
      var s, rest := ss[0], ss[1..];
      assert [s] + rest == ss && AllStrsFit(rest);
      var m := Split(c, Counted(s, 2), Strs(rest), c');
      assert ReadCounted(c, 2) == Ok((s, m)) by {
        CountedExact(c, 2, s, m);
      }
      StrsEncoded(m, rest, c');
    }
  }

  lemma NamesExact(c: Cursor, ss: seq<Bytes>, c': Cursor)
    ensures ReadNames(c) == Ok((ss, c')) <==>
            |ss| < Range(2) && AllStrsFit(ss) && Consumed(c, Le(|ss|, 2) + Strs(ss), c')
  {
    if ReadNames(c) == Ok((ss, c')) {
      var (n, m) := ReadVal(c, 2).value;
      ReadValExact(c, 2, n, m);
      StrsParsed(m, n);
      Chain(c, Le(n, 2), m, Strs(ss), c');
    }
    if |ss| < Range(2) && AllStrsFit(ss) && Consumed(c, Le(|ss|, 2) + Strs(ss), c') {
      var m := Split(c, Le(|ss|, 2), Strs(ss), c');
      ReadValExact(c, 2, |ss|, m);
      StrsEncoded(m, ss, c');
    }
  }

  lemma FieldExact(c: Cursor, k: Kind, f: Field, c': Cursor)
    ensures ReadField(c, k) == Ok((f, c')) <==> FieldFits(f, k) && Consumed(c, EncodeField(f, k), c')
  {
    match k
    case Val(w) => if f.V? { ReadValExact(c, w, f.v, c'); }
    case Cnt(w) => if f.B? { CountedExact(c, w, f.b, c'); }
    case Names => if f.Ns? { NamesExact(c, f.ss, c'); }
  }

  lemma {:induction false} FieldsParsed(c: Cursor, ks: seq<Kind>)
    requires ReadFields(c, ks).Ok?
    ensures var (fs, c') := ReadFields(c, ks).value;
            FieldsFit(fs, ks) && Consumed(c, EncodeFields(fs, ks), c')
    decreases |ks|
  {
    hide ReadField, EncodeField;
    var (fs, c') := ReadFields(c, ks).value;
    if ks == [] {
      assert [] + c'.rest == c'.rest;
    } else {
      var (f, m) := ReadField(c, ks[0]).value;
      FieldExact(c, ks[0], f, m);
      FieldsParsed(m, ks[1..]);
      assert fs[1..] == ReadFields(m, ks[1..]).value.0;
      Chain(c, EncodeField(f, ks[0]), m, EncodeFields(fs[1..], ks[1..]), c');
    }
  }

  lemma {:induction false} FieldsEncoded(c: Cursor, ks: seq<Kind>, fs: seq<Field>, c': Cursor)
    requires FieldsFit(fs, ks) && Consumed(c, EncodeFields(fs, ks), c')
    ensures ReadFields(c, ks) == Ok((fs, c'))
    decreases |ks|
  {
    hide ReadField, EncodeField;
    if ks == [] {
      assert [] + c'.rest == c'.rest;
    } else {
      var m := Split(c, EncodeField(fs[0], ks[0]), EncodeFields(fs[1..], ks[1..]), c');
      FieldExact(c, ks[0], fs[0], m);
      FieldsEncoded(m, ks[1..], fs[1..], c');
      assert [fs[0]] + fs[1..] == fs;
    }
  }

  /** Parsing and encoding are inverse. The parser of a message type returns a request and a rest
      exactly when the request is of that type and fits, and its encoding is exactly what was
      consumed: whatever bytes follow, and however much more the message claims to hold. */
  lemma RequestRoundTrip(kind: nat, c: Cursor, r: Request, c': Cursor)
    ensures ParseBody(kind, c) == Ok((r, c')) <==> TypeOf(r) == kind && Fits(r) && Consumed(c, Body(r), c')
  {
    if ParseBody(kind, c) == Ok((r, c')) {
      var (fs, _) := ReadFields(c, Format(kind)).value;
      FieldsParsed(c, Format(kind));
      FieldsOfRequest(kind, fs);
    }
    if TypeOf(r) == kind && Fits(r) && Consumed(c, Body(r), c') {
      FieldsEncoded(c, Format(kind), Fields(r), c');
      RequestOfFields(r);
    }
  }

  // ---------------------------------------------------------------- messages

  /** Size, type and tag precede the body; the size counts all of them. */
  const HEADER_BYTES := 7

  function Message(tag: nat, r: Request): Bytes {
    Le(HEADER_BYTES + |Body(r)|, 4) + [TypeOf(r) as Byte] + Le(tag, 2) + Body(r)
  }

  /** The server copies `size - 4` bytes into a buffer of `size` bytes and lets the parser read up to
      `size` bytes from the body on; `junk` is what the buffer holds after the copied bytes. A size beyond
      the end of the packet is not refused by handleTMesg: it copies past the guest's buffer, which is
      undefined; such packets have no result here. */
  function ParseMessage(packet: Bytes, junk: Bytes): Option<(nat, Parse<Request>)> {
    if |packet| < HEADER_BYTES then None
    else
      var size := FromLe(packet[..4]);
      if size < HEADER_BYTES || size > |packet| then None
      else Some((FromLe(packet[5..7]), ParseBody(packet[4], Cursor(packet[HEADER_BYTES..size] + junk, size))))
  }

  /** Every request the guest builds reaches the server unchanged. */
  lemma MessageRoundTrip(tag: nat, r: Request, junk: Bytes)
    requires Fits(r) && tag < Range(2) && HEADER_BYTES + |Body(r)| < Range(4)
    ensures ParseMessage(Message(tag, r), junk) == Some((tag, Ok((r, Cursor(junk, HEADER_BYTES)))))
  {
    var packet := Message(tag, r);
    var size := HEADER_BYTES + |Body(r)|;
    assert packet[..4] == Le(size, 4);
    assert packet[5..7] == Le(tag, 2);
    assert packet[HEADER_BYTES..size] == Body(r);
    LeRoundTrip(size, 4);
    LeRoundTrip(tag, 2);
    RequestRoundTrip(TypeOf(r), Cursor(Body(r) + junk, size), r, Cursor(junk, HEADER_BYTES));
  }

  /** Whatever bytes arrive: a request is accepted exactly if the packet holds a header with its type and
      tag, the size in it covers the header and not more than the packet, and the bytes read are the
      request's encoding. */
  lemma MessageAcceptedIff(packet: Bytes, junk: Bytes, tag: nat, r: Request, c': Cursor)
    ensures ParseMessage(packet, junk) == Some((tag, Ok((r, c')))) <==>
            && |packet| >= HEADER_BYTES && packet[4] == TypeOf(r) && packet[5..7] == Le(tag, 2) && tag < Range(2)
            && Fits(r)
            && exists size :: HEADER_BYTES <= size <= |packet| && size < Range(4) && packet[..4] == Le(size, 4)
                              && Consumed(Cursor(packet[HEADER_BYTES..size] + junk, size), Body(r), c')
  {
    hide ParseBody, Body, Fits;
    if |packet| >= HEADER_BYTES {
      var size := FromLe(packet[..4]);
      FromLeRoundTrip(packet[..4]);
      FromLeRoundTrip(packet[5..7]);
      if tag < Range(2) {
        LeRoundTrip(tag, 2);
      }
      forall s: nat | s < Range(4) && packet[..4] == Le(s, 4)
        ensures s == size
      {
        LeRoundTrip(s, 4);
      }
      if HEADER_BYTES <= size <= |packet| {
        RequestRoundTrip(packet[4], Cursor(packet[HEADER_BYTES..size] + junk, size), r, c');
      }
    }
  }

  /** The first loop of `p9_walk`: the bytes the names will take. */
  method NameListSize(names: seq<Bytes>) returns (total: nat)
    ensures total == |Strs(names)|
  {
    total := 0;
    for i := 0 to |names|
      invariant total == |Strs(names[..i])|
    {
      total := total + 2;
      total := total + |names[i]|;
      StrsSnoc(names[..i], names[i]);
      assert names[..i + 1] == names[..i] + [names[i]];
    }
    assert names[..|names|] == names;
  }

  lemma {:induction false} StrsSnoc(ss: seq<Bytes>, s: Bytes)
    ensures Strs(ss + [s]) == Strs(ss) + Counted(s, 2)
  {
    if ss == [] {
      assert ss + [s] == [s] && [s][1..] == [];
      assert Counted(s, 2) + [] == [] + Counted(s, 2);
    } else {
      StrsSnoc(ss[1..], s);
      assert (ss + [s])[1..] == ss[1..] + [s];
      ConcatAssociates(Counted(ss[0], 2), Strs(ss[1..]), Counted(s, 2));
    }
  }

  /** The parser's position in a body: it moves forward as fields are read. */
  class Reader {
    const body: Bytes
    var offset: nat
    var size: nat

    ghost predicate Valid()
      reads this
    {
      offset <= |body|
    }

    ghost function View(): Cursor
      requires Valid()
      reads this
    {
      Cursor(body[offset..], size)
    }

    constructor (body: Bytes, size: nat)
      ensures Valid() && View() == Cursor(body, size)
    {
      this.body, this.offset, this.size := body, 0, size;
    }

    method Read(l: nat) returns (r: Result<Bytes, ParseError>)
      requires Valid()
      modifies this
      ensures Valid()
      ensures r.Ok? ==> ReadBytes(old(View()), l) == Ok((r.value, View()))
      ensures r.Err? ==> ReadBytes(old(View()), l) == Err(r.error)
    {
      if size < l {
        return Err(Short);
      }
      if |body| - offset < l {
        return Err(Overrun);
      }
      var data := body[offset..offset + l];
      assert data == View().rest[..l] && body[offset + l..] == View().rest[l..];
      size := size - l;
      offset := offset + l;
      return Ok(data);
    }

    method ReadValue(w: nat) returns (r: Result<nat, ParseError>)
      requires Valid()
      modifies this
      ensures Valid()
      ensures r.Ok? ==> ReadVal(old(View()), w) == Ok((r.value, View()))
      ensures r.Err? ==> ReadVal(old(View()), w) == Err(r.error)
    {
      var data := Read(w);
      if data.Err? {
        return Err(data.error);
      }
      return Ok(FromLe(data.value));
    }

    method ReadCountedBytes(w: nat) returns (r: Result<Bytes, ParseError>)
      requires Valid()
      modifies this
      ensures Valid()
      ensures r.Ok? ==> ReadCounted(old(View()), w) == Ok((r.value, View()))
      ensures r.Err? ==> ReadCounted(old(View()), w) == Err(r.error)
    {
      var count := Read(w);
      if count.Err? {
        return count;
      }
      r := Read(FromLe(count.value));
    }

    /** The loop of the TWalk constructor. */
    method ReadNameList(n: nat) returns (r: Result<seq<Bytes>, ParseError>)
      requires Valid()
      modifies this
      ensures Valid()
      ensures r.Ok? ==> ReadStrs(old(View()), n) == Ok((r.value, View()))
      ensures r.Err? ==> ReadStrs(old(View()), n) == Err(r.error)
    {
      var names: seq<Bytes> := [];
      PrependNone(ReadStrs(View(), n));
      for i := 0 to n
        invariant Valid()
        invariant ReadStrs(old(View()), n) == Prepend(names, ReadStrs(View(), n - i))
      {
        ghost var before := View();
        var name := ReadCountedBytes(2);
        if name.Err? {
          return Err(name.error);
        }
        PrependStep(names, before, name.value, View(), n - i);
        names := names + [name.value];
      }
      assert names + [] == names;
      return Ok(names);
    }
  }

  function Prepend(ss: seq<Bytes>, p: Parse<seq<Bytes>>): Parse<seq<Bytes>> {
    var (rest, c) :- p;
    Ok((ss + rest, c))
  }

  lemma PrependNone(p: Parse<seq<Bytes>>)
    ensures Prepend([], p) == p
  {
    if p.Ok? {
      assert [] + p.value.0 == p.value.0;
    }
  }

  lemma PrependStep(ss: seq<Bytes>, c: Cursor, s: Bytes, c1: Cursor, n: nat)
    requires n > 0 && ReadCounted(c, 2) == Ok((s, c1))
    ensures Prepend(ss, ReadStrs(c, n)) == Prepend(ss + [s], ReadStrs(c1, n - 1))
  {
    var p := ReadStrs(c1, n - 1);
    if p.Ok? {
      assert ss + ([s] + p.value.0) == (ss + [s]) + p.value.0;
    }
  }
}
