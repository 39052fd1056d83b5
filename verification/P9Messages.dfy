/** Both ends of the 9P request format as code: the guest kernel's message builders, which fill a buffer
    field by field at the offsets of their packed structs, and the server's request constructors, which
    read field by field. */
module P9Messages {
  import opened Words
  import opened P9Wire

  // --------------------------------------------------------- bodies, written out

  lemma OneField(fs: seq<Field>, ks: seq<Kind>)
    requires |fs| == |ks| == 1 && Shaped(fs, ks)
    ensures EncodeFields(fs, ks) == EncodeField(fs[0], ks[0])
  {
    hide EncodeField;
    assert fs[1..] == [] && ks[1..] == [];
    assert EncodeField(fs[0], ks[0]) + [] == EncodeField(fs[0], ks[0]);
  }

  lemma TwoFields(fs: seq<Field>, ks: seq<Kind>)
    requires |fs| == |ks| == 2 && Shaped(fs, ks)
    ensures EncodeFields(fs, ks) == EncodeField(fs[0], ks[0]) + EncodeField(fs[1], ks[1])
  {
    hide EncodeField;
    OneField(fs[1..], ks[1..]);
  }

  lemma ThreeFields(fs: seq<Field>, ks: seq<Kind>)
    requires |fs| == |ks| == 3 && Shaped(fs, ks)
    ensures EncodeFields(fs, ks) == EncodeField(fs[0], ks[0]) + EncodeField(fs[1], ks[1]) + EncodeField(fs[2], ks[2])
  {
    hide EncodeField;
    TwoFields(fs[1..], ks[1..]);
    ConcatAssociates(EncodeField(fs[0], ks[0]), EncodeField(fs[1], ks[1]), EncodeField(fs[2], ks[2]));
  }

  lemma FourFields(fs: seq<Field>, ks: seq<Kind>)
    requires |fs| == |ks| == 4 && Shaped(fs, ks)
    ensures EncodeFields(fs, ks) ==
            EncodeField(fs[0], ks[0]) + EncodeField(fs[1], ks[1])
            + EncodeField(fs[2], ks[2]) + EncodeField(fs[3], ks[3])
  {
    hide EncodeField;
    ThreeFields(fs[1..], ks[1..]);
    var a, b := EncodeField(fs[0], ks[0]), EncodeField(fs[1], ks[1]);
    var c, d := EncodeField(fs[2], ks[2]), EncodeField(fs[3], ks[3]);
    assert a + (b + c + d) == a + b + c + d;
  }

  /** The bodies of the messages that the guest builds, as bytes. */
  lemma Bodies(r: Request)
    ensures match r
            case TVersion(msize, version) => Body(r) == Le(msize, 4) + Counted(version, 2)
            case TAuth(afid, uname, aname) => Body(r) == Le(afid, 4) + Counted(uname, 2) + Counted(aname, 2)
            case TAttach(fid, afid, uname, aname) =>
              Body(r) == Le(fid, 4) + Le(afid, 4) + Counted(uname, 2) + Counted(aname, 2)
            case TWalk(fid, newfid, names) => Body(r) == Le(fid, 4) + Le(newfid, 4) + (Le(|names|, 2) + Strs(names))
            case TOpen(fid, mode) => Body(r) == Le(fid, 4) + Le(mode, 1)
            case TCreate(fid, name, perm, mode) => Body(r) == Le(fid, 4) + Counted(name, 2) + Le(perm, 4) + Le(mode, 1)
            case TRead(fid, offset, count) => Body(r) == Le(fid, 4) + Le(offset, 8) + Le(count, 4)
            case TWrite(fid, offset, data) => Body(r) == Le(fid, 4) + Le(offset, 8) + Counted(data, 4)
            case TClunk(fid) => Body(r) == Le(fid, 4)
            case TRemove(fid) => Body(r) == Le(fid, 4)
            case _ => true
  {
    hide Le, Strs, Counted, EncodeFields;
    var fs, ks := Fields(r), Format(TypeOf(r));
    if |fs| == 1 {
      OneField(fs, ks);
    } else if |fs| == 2 {
      TwoFields(fs, ks);
    } else if |fs| == 3 {
      ThreeFields(fs, ks);
    } else {
      FourFields(fs, ks);
    }
  }

  function Head(tag: nat, kind: Byte, size: nat): (h: Bytes)
    ensures |h| == HEADER_BYTES
  {
    Le(HEADER_BYTES + size, 4) + [kind] + Le(tag, 2)
  }

  /** A message whose body consists of four parts, written one after another. */
  lemma InParts(tag: nat, r: Request, a: Bytes, b: Bytes, c: Bytes, d: Bytes)
    requires Body(r) == a + b + c + d
    ensures Message(tag, r) == Head(tag, TypeOf(r), |a| + |b| + |c| + |d|) + a + b + c + d
  {
    hide Le, Body;
    var h := Head(tag, TypeOf(r), |a| + |b| + |c| + |d|);
    assert h + (a + b + c + d) == h + a + b + c + d;
  }

  // ------------------------------------------------------------------ the guest

  const VERSION: Bytes := [0x50, 0x39, 0x32, 0x30, 0x32, 0x31]
  const PIZZA: Bytes := [0x70, 0x69, 0x7a, 0x7a, 0x61]
  const WHO: Bytes := [0x77, 0x68, 0x6f]

  /** The kernel's fid and tag counters, and the buffer a message is built in. Strings are given
      without their terminating NUL. */
  class Guest {
    var fid: Word
    var tag: Word
    const buf: array<Byte>

    constructor (buf: array<Byte>)
      ensures fid == 1 && tag == 0x100 && this.buf == buf
    {
      fid, tag := 1, 0x100;
      this.buf := buf;
    }

    /** Stores `b` at offset `at`. */
    method Store(at: nat, b: Bytes)
      requires at + |b| <= buf.Length
      modifies buf
      ensures buf[..at + |b|] == old(buf[..at]) + b
      ensures forall i :: at + |b| <= i < buf.Length ==> buf[i] == old(buf[i])
    {
      for i := 0 to |b|
        invariant forall k :: 0 <= k < buf.Length ==> buf[k] == if at <= k < at + i then b[k - at] else old(buf[k])
      {
        buf[at + i] := b[i];
      }
    }

    /** The message stands at the front of the buffer, and nothing behind it was touched. */
    twostate predicate Holds(tag: nat, r: Request)
      reads this, buf
    {
      && |Message(tag, r)| <= buf.Length
      && buf[..|Message(tag, r)|] == Message(tag, r)
      && forall i :: |Message(tag, r)| <= i < buf.Length ==> buf[i] == old(buf[i])
    }

    /** Size, type and tag; the tag is stored in two bytes. */
    method Header(total: nat, kind: Byte)
      requires HEADER_BYTES <= buf.Length && total >= HEADER_BYTES
      modifies this`tag, buf
      ensures tag == Wrap(old(tag) as int + 1)
      ensures buf[..HEADER_BYTES] == Head(old(tag) % 0x1_0000, kind, total - HEADER_BYTES)
      ensures forall i :: HEADER_BYTES <= i < buf.Length ==> buf[i] == old(buf[i])
    {
      assert buf[..0] == [];
      Store(0, Le(total, 4));
      Store(4, [kind]);
      Store(5, Le(tag % 0x1_0000, 2));
      tag := Wrap(tag as int + 1);
    }

    method BuildClunk(f: Word)
      requires 11 <= buf.Length
      modifies this`tag, buf
      ensures Holds(old(tag) % 0x1_0000, TClunk(f)) && tag == Wrap(old(tag) as int + 1)
    {
      hide Le, Body, Message, Counted;
      Bodies(TClunk(f));
      InParts(tag % 0x1_0000, TClunk(f), Le(f, 4), [], [], []);
      Header(7 + 4, P9_TCLUNK);
      Store(7, Le(f, 4));
    }

    method BuildRemove(f: Word)
      requires 11 <= buf.Length
      modifies this`tag, buf
      ensures Holds(old(tag) % 0x1_0000, TRemove(f)) && tag == Wrap(old(tag) as int + 1)
    {
      hide Le, Body, Message, Counted;
      Bodies(TRemove(f));
      InParts(tag % 0x1_0000, TRemove(f), Le(f, 4), [], [], []);
      Header(7 + 4, P9_TREMOVE);
      Store(7, Le(f, 4));
    }

    method BuildOpen(f: Word, mode: Byte)
      requires 12 <= buf.Length
      modifies this`tag, buf
      ensures Holds(old(tag) % 0x1_0000, TOpen(f, mode)) && tag == Wrap(old(tag) as int + 1)
    {
      hide Le, Body, Message, Counted;
      Bodies(TOpen(f, mode));
      InParts(tag % 0x1_0000, TOpen(f, mode), Le(f, 4), Le(mode, 1), [], []);
      Header(7 + 5, P9_TOPEN);
      Store(7, Le(f, 4));
      Store(11, Le(mode, 1));
    }

    method BuildRead(f: Word, offset: Word, count: Word)
      requires 23 <= buf.Length
      modifies this`tag, buf
      ensures Holds(old(tag) % 0x1_0000, TRead(f, offset, count)) && tag == Wrap(old(tag) as int + 1)
    {
      hide Le, Body, Message, Counted;
      Bodies(TRead(f, offset, count));
      InParts(tag % 0x1_0000, TRead(f, offset, count), Le(f, 4), Le(offset, 8), Le(count, 4), []);
      Header(7 + 16, P9_TREAD);
      Store(7, Le(f, 4));
      Store(11, Le(offset, 8));
      Store(19, Le(count, 4));
    }

    /** A counted string at offset `at`: its size, then its bytes. */
    method StoreString(at: nat, s: Bytes)
      requires at + 2 + |s| <= buf.Length
      modifies buf
      ensures buf[..at + 2 + |s|] == old(buf[..at]) + Counted(s, 2)
      ensures forall i :: at + 2 + |s| <= i < buf.Length ==> buf[i] == old(buf[i])
    {
      hide Le;
      Store(at, Le(|s|, 2));
      Store(at + 2, s);
      ConcatAssociates(old(buf[..at]), Le(|s|, 2), s);
    }

    method BuildVersion()
      requires 19 <= buf.Length
      modifies this`tag, buf
      ensures Holds(old(tag) % 0x1_0000, TVersion(0x1_0000, VERSION)) && tag == Wrap(old(tag) as int + 1)
    {
      hide Le, Body, Message, Counted;
      CountedSize(VERSION, 2);
      Bodies(TVersion(0x1_0000, VERSION));
      InParts(tag % 0x1_0000, TVersion(0x1_0000, VERSION), Le(0x1_0000, 4), Counted(VERSION, 2), [], []);
      Header(7 + 4 + 2 + |VERSION|, P9_TVERSION);
      Store(7, Le(0x1_0000, 4));
      StoreString(11, VERSION);
    }

    /** Whatever names are passed, the kernel authenticates with its own. */
    method BuildAuth(u: Bytes, a: Bytes)
      requires 23 <= buf.Length
      modifies this`fid, this`tag, buf
      ensures Holds(old(tag) % 0x1_0000, TAuth(old(fid), PIZZA, WHO))
      ensures tag == Wrap(old(tag) as int + 1) && fid == Wrap(old(fid) as int + 1)
    {
      hide Le, Body, Message, Counted;
      CountedSize(PIZZA, 2);
      CountedSize(WHO, 2);
      var u, a := PIZZA, WHO;
      Bodies(TAuth(fid, u, a));
      InParts(tag % 0x1_0000, TAuth(fid, u, a), Le(fid, 4), Counted(u, 2), Counted(a, 2), []);
      Header(7 + 4 + 2 + 2 + |u| + |a|, P9_TAUTH);
      Store(7, Le(fid, 4));
      fid := Wrap(fid as int + 1);
      StoreString(11, u);
      StoreString(11 + |u| + 2, a);
    }

    method BuildAttach(u: Bytes, a: Bytes) returns (f: Word)
      requires |u| < Range(2) && |a| < Range(2) && 19 + |u| + |a| <= buf.Length
      modifies this`fid, this`tag, buf
      ensures f == old(fid) && Holds(old(tag) % 0x1_0000, TAttach(f, 0xFFFF_FFFF, u, a))
      ensures tag == Wrap(old(tag) as int + 1) && fid == Wrap(old(fid) as int + 1)
    {
      hide Le, Body, Message, Counted;
      CountedSize(u, 2);
      CountedSize(a, 2);
      f := fid;
      Bodies(TAttach(f, 0xFFFF_FFFF, u, a));
      InParts(tag % 0x1_0000, TAttach(f, 0xFFFF_FFFF, u, a),
              Le(f, 4), Le(0xFFFF_FFFF, 4), Counted(u, 2), Counted(a, 2));
      Header(7 + 8 + 2 + 2 + |u| + |a|, P9_TATTACH);
      Store(7, Le(fid, 4));
      fid := Wrap(fid as int + 1);
      Store(11, Le(0xFFFF_FFFF, 4));
      StoreString(15, u);
      StoreString(15 + |u| + 2, a);
    }

    method BuildCreate(f: Word, name: Bytes, perm: Word, mode: Byte)
      requires |name| < Range(2) && 18 + |name| <= buf.Length
      modifies this`tag, buf
      ensures Holds(old(tag) % 0x1_0000, TCreate(f, name, perm, mode)) && tag == Wrap(old(tag) as int + 1)
    {
      hide Le, Body, Message, Counted;
      CountedSize(name, 2);
      Bodies(TCreate(f, name, perm, mode));
      InParts(tag % 0x1_0000, TCreate(f, name, perm, mode), Le(f, 4), Counted(name, 2), Le(perm, 4), Le(mode, 1));
      Header(7 + 4 + 2 + |name| + 4 + 1, P9_TCREATE);
      Store(7, Le(f, 4));
      StoreString(11, name);
      Store(11 + 2 + |name|, Le(perm, 4));
      Store(11 + 2 + |name| + 4, Le(mode, 1));
    }

    method BuildWrite(f: Word, offset: Word, data: Bytes)
      requires 23 + |data| <= buf.Length && 23 + |data| < WORD
      modifies this`tag, buf
      ensures Holds(old(tag) % 0x1_0000, TWrite(f, offset, data)) && tag == Wrap(old(tag) as int + 1)
    {
      hide Le, Body, Message;
      Bodies(TWrite(f, offset, data));
      ghost var front := Le(f, 4) + Le(offset, 8);
      ConcatAssociates(front, Le(|data|, 4), data);
      hide Counted;
      InParts(tag % 0x1_0000, TWrite(f, offset, data), Le(f, 4), Le(offset, 8), Le(|data|, 4), data);
      Header(7 + 16 + |data|, P9_TWRITE);
      Store(7, Le(f, 4));
      Store(11, Le(offset, 8));
      Store(19, Le(|data|, 4));
      Store(23, data);
    }

    method BuildWalk(f: Word, newfid: Word, names: seq<Bytes>)
      requires Fits(TWalk(f, newfid, names)) && 17 + |Strs(names)| <= buf.Length
      modifies this`tag, buf
      ensures Holds(old(tag) % 0x1_0000, TWalk(f, newfid, names)) && tag == Wrap(old(tag) as int + 1)
    {
      hide Le, Body, Message, Counted;
      var size := NameListSize(names);
      Bodies(TWalk(f, newfid, names));
      ConcatAssociates(Le(f, 4) + Le(newfid, 4), Le(|names|, 2), Strs(names));
      InParts(tag % 0x1_0000, TWalk(f, newfid, names), Le(f, 4), Le(newfid, 4), Le(|names|, 2), Strs(names));
      Header(7 + 10 + size, P9_TWALK);
      Store(7, Le(f, 4));
      Store(11, Le(newfid, 4));
      Store(15, Le(|names|, 2));
      StoreNames(17, names);
    }

    /** The second loop of p9_walk. */
    method StoreNames(at: nat, names: seq<Bytes>)
      requires at + |Strs(names)| <= buf.Length
      modifies buf
      ensures buf[..at + |Strs(names)|] == old(buf[..at]) + Strs(names)
      ensures forall i :: at + |Strs(names)| <= i < buf.Length ==> buf[i] == old(buf[i])
    {
      assert names[..0] == [] && names[0..] == names && Strs([]) == [];
      hide Strs, Counted;
      var tail := at;
      for i := 0 to |names|
        invariant tail == at + |Strs(names[..i])|
        invariant tail + |Strs(names[i..])| == at + |Strs(names)|
        invariant buf[..tail] == old(buf[..at]) + Strs(names[..i])
        invariant forall k :: at + |Strs(names)| <= k < buf.Length ==> buf[k] == old(buf[k])
      {
        NameStep(names, i);
        StoreString(tail, names[i]);
        ConcatAssociates(old(buf[..at]), Strs(names[..i]), Counted(names[i], 2));
        tail := tail + 2 + |names[i]|;
      }
      assert names[..|names|] == names;
    }
  }

  lemma CountedSize(s: Bytes, w: nat)
    ensures |Counted(s, w)| == w + |s|
  {
  }

  lemma NameStep(names: seq<Bytes>, i: nat)
    requires i < |names|
    ensures Strs(names[..i + 1]) == Strs(names[..i]) + Counted(names[i], 2)
    ensures Strs(names[i..]) == Counted(names[i], 2) + Strs(names[i + 1..])
    ensures |Counted(names[i], 2)| == 2 + |names[i]|
  {
    StrsSnoc(names[..i], names[i]);
    assert names[..i + 1] == names[..i] + [names[i]];
    assert names[i..][1..] == names[i + 1..];
  }

  // ----------------------------------------------------------------- the server

  function Then(p: Parse<Field>, ks: seq<Kind>): Parse<seq<Field>> {
    var (f, c) :- p;
    var (fs, c') :- ReadFields(c, ks);
    Ok(([f] + fs, c'))
  }

  lemma ReadFirstField(c: Cursor, ks: seq<Kind>)
    requires ks != []
    ensures ReadFields(c, ks) == Then(ReadField(c, ks[0]), ks[1..])
  {
  }

  lemma ReadLastField(c: Cursor, k: Kind)
    ensures ReadFields(c, [k]) == var (f, c') :- ReadField(c, k); Ok(([f], c'))
  {
    ReadFirstField(c, [k]);
    assert [k][1..] == [];
    if ReadField(c, k).Ok? {
      var f := ReadField(c, k).value.0;
      assert [f] + [] == [f];
    }
  }

  /** The formats, one field after another. */
  lemma FormatTails(kind: nat)
    requires kind in REQUEST_TYPES
    ensures Format(kind)[1..] ==
            if kind == P9_TVERSION || kind == P9_TWSTAT then [Cnt(2)]
            else if kind == P9_TAUTH then [Cnt(2), Cnt(2)]
            else if kind == P9_TATTACH then [Val(4), Cnt(2), Cnt(2)]
            else if kind == P9_TWALK then [Val(4), Names]
            else if kind == P9_TOPEN then [Val(1)]
            else if kind == P9_TCREATE then [Cnt(2), Val(4), Val(1)]
            else if kind == P9_TREAD then [Val(8), Val(4)]
            else if kind == P9_TWRITE then [Val(8), Cnt(4)]
            else []
  {
  }

  /** The constructor returned r and stopped at `after`, or threw. */
  ghost predicate Parses(kind: nat, before: Cursor, r: Result<Request, ParseError>, after: Cursor) {
    ParseBody(kind, before) == if r.Ok? then Ok((r.value, after)) else Err(r.error)
  }

  method ParseFid(p: Reader, kind: nat) returns (r: Result<Request, ParseError>)
    requires p.Valid() && kind in {P9_TFLUSH, P9_TCLUNK, P9_TREMOVE, P9_TSTAT}
    modifies p
    ensures p.Valid() && Parses(kind, old(p.View()), r, p.View())
  {
    hide ReadVal, ReadFields;
    assert Format(kind) == [Val(4)];
    ReadLastField(p.View(), Val(4));
    var fid :- p.ReadValue(4);
    if kind == P9_TFLUSH {
      return Ok(TFlush(fid));
    } else if kind == P9_TCLUNK {
      return Ok(TClunk(fid));
    } else if kind == P9_TREMOVE {
      return Ok(TRemove(fid));
    } else {
      return Ok(TStat(fid));
    }
  }

  method ParseVersion(p: Reader) returns (r: Result<Request, ParseError>)
    requires p.Valid()
    modifies p
    ensures p.Valid() && Parses(P9_TVERSION, old(p.View()), r, p.View())
  {
    hide ReadVal, ReadCounted, ReadStrs, ReadFields;
    FormatTails(P9_TVERSION);
    ReadFirstField(p.View(), Format(P9_TVERSION));
    var msize :- p.ReadValue(4);
    ReadLastField(p.View(), Cnt(2));
    var version :- p.ReadCountedBytes(2);
    return Ok(TVersion(msize, version));
  }

  method ParseAuth(p: Reader) returns (r: Result<Request, ParseError>)
    requires p.Valid()
    modifies p
    ensures p.Valid() && Parses(P9_TAUTH, old(p.View()), r, p.View())
  {
    hide ReadVal, ReadCounted, ReadStrs, ReadFields;
    FormatTails(P9_TAUTH);
    ReadFirstField(p.View(), Format(P9_TAUTH));
    var afid :- p.ReadValue(4);
    ReadFirstField(p.View(), [Cnt(2), Cnt(2)]);
    var uname :- p.ReadCountedBytes(2);
    ReadLastField(p.View(), Cnt(2));
    var aname :- p.ReadCountedBytes(2);
    return Ok(TAuth(afid, uname, aname));
  }

  method ParseAttach(p: Reader) returns (r: Result<Request, ParseError>)
    requires p.Valid()
    modifies p
    ensures p.Valid() && Parses(P9_TATTACH, old(p.View()), r, p.View())
  {
    hide ReadVal, ReadCounted, ReadStrs, ReadFields;
    FormatTails(P9_TATTACH);
    ReadFirstField(p.View(), Format(P9_TATTACH));
    var fid :- p.ReadValue(4);
    ReadFirstField(p.View(), [Val(4), Cnt(2), Cnt(2)]);
    var afid :- p.ReadValue(4);
    ReadFirstField(p.View(), [Cnt(2), Cnt(2)]);
    var uname :- p.ReadCountedBytes(2);
    ReadLastField(p.View(), Cnt(2));
    var aname :- p.ReadCountedBytes(2);
    return Ok(TAttach(fid, afid, uname, aname));
  }

  method ParseOpen(p: Reader) returns (r: Result<Request, ParseError>)
    requires p.Valid()
    modifies p
    ensures p.Valid() && Parses(P9_TOPEN, old(p.View()), r, p.View())
  {
    hide ReadVal, ReadCounted, ReadStrs, ReadFields;
    FormatTails(P9_TOPEN);
    ReadFirstField(p.View(), Format(P9_TOPEN));
    var fid :- p.ReadValue(4);
    ReadLastField(p.View(), Val(1));
    var mode :- p.ReadValue(1);
    return Ok(TOpen(fid, mode));
  }

  method ParseCreate(p: Reader) returns (r: Result<Request, ParseError>)
    requires p.Valid()
    modifies p
    ensures p.Valid() && Parses(P9_TCREATE, old(p.View()), r, p.View())
  {
    hide ReadVal, ReadCounted, ReadStrs, ReadFields;
    FormatTails(P9_TCREATE);
    ReadFirstField(p.View(), Format(P9_TCREATE));
    var fid :- p.ReadValue(4);
    ReadFirstField(p.View(), [Cnt(2), Val(4), Val(1)]);
    var name :- p.ReadCountedBytes(2);
    ReadFirstField(p.View(), [Val(4), Val(1)]);
    var perm :- p.ReadValue(4);
    ReadLastField(p.View(), Val(1));
    var mode :- p.ReadValue(1);
    return Ok(TCreate(fid, name, perm, mode));
  }

  method ParseRead(p: Reader) returns (r: Result<Request, ParseError>)
    requires p.Valid()
    modifies p
    ensures p.Valid() && Parses(P9_TREAD, old(p.View()), r, p.View())
  {
    hide ReadVal, ReadCounted, ReadStrs, ReadFields;
    FormatTails(P9_TREAD);
    ReadFirstField(p.View(), Format(P9_TREAD));
    var fid :- p.ReadValue(4);
    ReadFirstField(p.View(), [Val(8), Val(4)]);
    var offset :- p.ReadValue(8);
    ReadLastField(p.View(), Val(4));
    var count :- p.ReadValue(4);
    return Ok(TRead(fid, offset, count));
  }

  method ParseWrite(p: Reader) returns (r: Result<Request, ParseError>)
    requires p.Valid()
    modifies p
    ensures p.Valid() && Parses(P9_TWRITE, old(p.View()), r, p.View())
  {
    hide ReadVal, ReadCounted, ReadStrs, ReadFields;
    FormatTails(P9_TWRITE);
    ReadFirstField(p.View(), Format(P9_TWRITE));
    var fid :- p.ReadValue(4);
    ReadFirstField(p.View(), [Val(8), Cnt(4)]);
    var offset :- p.ReadValue(8);
    ReadLastField(p.View(), Cnt(4));
    var data :- p.ReadCountedBytes(4);
    return Ok(TWrite(fid, offset, data));
  }

  method ParseWstat(p: Reader) returns (r: Result<Request, ParseError>)
    requires p.Valid()
    modifies p
    ensures p.Valid() && Parses(P9_TWSTAT, old(p.View()), r, p.View())
  {
    hide ReadVal, ReadCounted, ReadStrs, ReadFields;
    FormatTails(P9_TWSTAT);
    ReadFirstField(p.View(), Format(P9_TWSTAT));
    var fid :- p.ReadValue(4);
    ReadLastField(p.View(), Cnt(2));
    var stat :- p.ReadCountedBytes(2);
    return Ok(TWstat(fid, stat));
  }

  method ParseWalk(p: Reader) returns (r: Result<Request, ParseError>)
    requires p.Valid()
    modifies p
    ensures p.Valid() && Parses(P9_TWALK, old(p.View()), r, p.View())
  {
    hide ReadVal, ReadCounted, ReadStrs, ReadFields;
    FormatTails(P9_TWALK);
    ReadFirstField(p.View(), Format(P9_TWALK));
    var fid :- p.ReadValue(4);
    ReadFirstField(p.View(), [Val(4), Names]);
    var newfid :- p.ReadValue(4);
    ReadLastField(p.View(), Names);
    var nwname :- p.ReadValue(2);
    var names :- p.ReadNameList(nwname);
    return Ok(TWalk(fid, newfid, names));
  }

  /** The switch on the message type; an unknown type yields no request. */
  method ToRequest(kind: nat, p: Reader) returns (r: Result<Request, ParseError>)
    requires p.Valid()
    modifies p
    ensures p.Valid() && Parses(kind, old(p.View()), r, p.View())
  {
    hide ReadFields;
    if kind == P9_TVERSION {
      r := ParseVersion(p);
    } else if kind == P9_TAUTH {
      r := ParseAuth(p);
    } else if kind == P9_TATTACH {
      r := ParseAttach(p);
    } else if kind == P9_TWALK {
      r := ParseWalk(p);
    } else if kind == P9_TOPEN {
      r := ParseOpen(p);
    } else if kind == P9_TCREATE {
      r := ParseCreate(p);
    } else if kind == P9_TREAD {
      r := ParseRead(p);
    } else if kind == P9_TWRITE {
      r := ParseWrite(p);
    } else if kind == P9_TWSTAT {
      r := ParseWstat(p);
    } else if kind in {P9_TFLUSH, P9_TCLUNK, P9_TREMOVE, P9_TSTAT} {
      r := ParseFid(p, kind);
    } else {
      r := Err(UnknownType);
    }
  }
}
