/**
 The tuple encoding that every key and value of the store goes through: the
 sections "Byte string", "Unicode string", "Nested Tuple" and "96 Bit
 Versionstamp" of the FoundationDB tuple layer specification (design/tuple.md).
 */
module Tuples {
  import opened Bytes

  type Versionstamp = v: Bytes | |v| == 12 witness seq(12, _ => 0)

  datatype Option<+T> = None | Some(value: T)

  datatype Element =
    | Bin(b: Bytes)
    | Str(s: Bytes)
    | Nested(elems: seq<Element>)
    | Stamp(vs: Versionstamp)
  {
    function Code(): byte {
      match this
      case Bin(_) => BYTES_CODE
      case Str(_) => STRING_CODE
      case Nested(_) => NESTED_CODE
      case Stamp(_) => STAMP_CODE
    }
  }

  const END: byte := 0x00
  const BYTES_CODE: byte := 0x01
  const STRING_CODE: byte := 0x02
  const NESTED_CODE: byte := 0x05
  const STAMP_CODE: byte := 0x33
  const ESCAPE: byte := 0xFF

  // -------------------------------------------------------------------------
  // Packing
  // -------------------------------------------------------------------------

  /** Every 0x00 becomes 0x00 0xFF. */
  function Escape(s: Bytes): Bytes {
    if s == [] then []
    else if s[0] == END then [END, ESCAPE] + Escape(s[1..])
    else [s[0]] + Escape(s[1..])
  }

  function PackElement(e: Element): (r: Bytes)
    ensures r != [] && r[0] == e.Code()
    decreases e, 1
  {
    match e
    case Bin(b) => [BYTES_CODE] + Escape(b) + [END]
    case Str(s) => [STRING_CODE] + Escape(s) + [END]
    case Nested(elems) => [NESTED_CODE] + Pack(elems) + [END]
    case Stamp(vs) => [STAMP_CODE] + vs
  }

  function Pack(es: seq<Element>): Bytes
    decreases es, 0
  {
    if es == [] then [] else PackElement(es[0]) + Pack(es[1..])
  }

  lemma {:induction false} EscapePlain(s: Bytes)
    requires 0x00 !in s
    ensures Escape(s) == s
  {
    if s != [] {
      assert s[0] in s && forall b :: b in s[1..] ==> b in s;
      EscapePlain(s[1..]);
    }
  }

  lemma {:induction false} EscapeConcat(a: Bytes, b: Bytes)
    ensures Escape(a + b) == Escape(a) + Escape(b)
  {
    if a == [] {
      assert a + b == b;
    } else {
      EscapeConcat(a[1..], b);
      assert (a + b)[1..] == a[1..] + b;
      Regroup(EscapeByte(a[0]), Escape(a[1..]), Escape(b));
      assert Escape(a + b) == EscapeByte(a[0]) + Escape(a[1..] + b);
    }
  }

  /** The escape of a 0x00, wherever it stands. */
  lemma {:induction false} EscapeZero(a: Bytes, b: Bytes)
    ensures Escape(a + [0x00] + b) == Escape(a) + [0x00, 0xFF] + Escape(b)
  {
    EscapeConcat(a + [0x00], b);
    EscapeConcat(a, [0x00]);
    assert Escape([0x00]) == [0x00, 0xFF];
  }

  /** What may follow an encoded string: nothing, or a byte that is not the escape mark. */
  ghost predicate Delimited(rest: Bytes) {
    rest == [] || rest[0] != ESCAPE
  }

  lemma {:induction false} PackDelimited(es: seq<Element>)
    ensures Delimited(Pack(es))
    ensures Delimited(Pack(es) + [END])
  {
  }

  lemma {:induction false} PackCons(e: Element, es: seq<Element>)
    ensures Pack([e] + es) == PackElement(e) + Pack(es)
  {
    assert ([e] + es)[1..] == es;
  }

  lemma {:induction false} PackConcat(es: seq<Element>, fs: seq<Element>)
    ensures Pack(es + fs) == Pack(es) + Pack(fs)
  {
    if es == [] {
      assert es + fs == fs;
    } else {
      var e, rest := es[0], es[1..];
      PackConcat(rest, fs);
      PackCons(e, rest + fs);
      PackCons(e, rest);
      assert es == [e] + rest && es + fs == [e] + (rest + fs);
      Regroup(PackElement(e), Pack(rest), Pack(fs));
    }
  }

  // -------------------------------------------------------------------------
  // Unpacking
  // -------------------------------------------------------------------------

  /** Reads up to the first 0x00 that is not followed by 0xFF. */
  function Unescape(b: Bytes): (r: Option<(Bytes, Bytes)>)
    ensures r.Some? ==> |r.value.1| < |b|
  {
    if b == [] then None
    else if b[0] == END then
      if |b| > 1 && b[1] == ESCAPE then
        match Unescape(b[2..])
        case None => None
        case Some((s, rest)) => Some(([END] + s, rest))
      else Some(([], b[1..]))
    else
      match Unescape(b[1..])
      case None => None
      case Some((s, rest)) => Some(([b[0]] + s, rest))
  }

  function UnpackElement(b: Bytes): (r: Option<(Element, Bytes)>)
    ensures r.Some? ==> |r.value.1| < |b|
    decreases |b|, 0
  {
    if b == [] then None
    else if b[0] == BYTES_CODE then
      match Unescape(b[1..])
      case None => None
      case Some((s, rest)) => Some((Bin(s), rest))
    else if b[0] == STRING_CODE then
      match Unescape(b[1..])
      case None => None
      case Some((s, rest)) => Some((Str(s), rest))
    else if b[0] == NESTED_CODE then
      match UnpackNested(b[1..])
      case None => None
      case Some((es, rest)) => Some((Nested(es), rest))
    else if b[0] == STAMP_CODE && |b| >= 13 then Some((Stamp(b[1..13]), b[13..]))
    else None
  }

  /** Elements up to the 0x00 that closes the nested tuple. */
  function UnpackNested(b: Bytes): (r: Option<(seq<Element>, Bytes)>)
    ensures r.Some? ==> |r.value.1| < |b|
    decreases |b|, 1
  {
    if b == [] then None
    else if b[0] == END then
      if |b| > 1 && b[1] == ESCAPE then None else Some(([], b[1..]))
    else
      match UnpackElement(b)
      case None => None
      case Some((e, rest)) =>
        match UnpackNested(rest)
        case None => None
        case Some((es, rest')) => Some(([e] + es, rest'))
  }

  function Unpack(b: Bytes): Option<seq<Element>>
    decreases |b|
  {
    if b == [] then Some([])
    else
      match UnpackElement(b)
      case None => None
      case Some((e, rest)) =>
        match Unpack(rest)
        case None => None
        case Some(es) => Some([e] + es)
  }

  // -------------------------------------------------------------------------
  // Round trip and injectivity
  // -------------------------------------------------------------------------

  lemma {:induction false} UnescapeEscape(s: Bytes, rest: Bytes)
    requires Delimited(rest)
    ensures Unescape(Escape(s) + [END] + rest) == Some((s, rest))
  {
    var b := Escape(s) + [END] + rest;
    if s == [] {
      assert b == [END] + rest;
    } else {
      UnescapeEscape(s[1..], rest);
      var tail := Escape(s[1..]) + [END] + rest;
      if s[0] == END {
        assert b == [END, ESCAPE] + tail;
        assert b[2..] == tail;
      } else {
        assert b == [s[0]] + tail;
        assert b[1..] == tail;
      }
      assert s == [s[0]] + s[1..];
    }
  }

  lemma {:induction false} UnpackStringPack(e: Element, s: Bytes, rest: Bytes)
    requires Delimited(rest) && (e == Bin(s) || e == Str(s))
    ensures UnpackElement(PackElement(e) + rest) == Some((e, rest))
  {
    UnescapeEscape(s, rest);
    assert (PackElement(e) + rest)[1..] == Escape(s) + [END] + rest;
  }

  lemma {:induction false} UnpackStampPack(vs: Versionstamp, rest: Bytes)
    ensures UnpackElement(PackElement(Stamp(vs)) + rest) == Some((Stamp(vs), rest))
  {
    var b := PackElement(Stamp(vs)) + rest;
    assert b[1..13] == vs && b[13..] == rest;
  }

  lemma {:induction false} UnpackElementPack(e: Element, rest: Bytes)
    requires Delimited(rest)
    ensures UnpackElement(PackElement(e) + rest) == Some((e, rest))
    decreases e, 1
  {
    match e {
      case Bin(s) => UnpackStringPack(e, s, rest);
      case Str(s) => UnpackStringPack(e, s, rest);
      case Nested(es) =>
        UnpackNestedPack(es, rest);
        assert (PackElement(e) + rest)[1..] == Pack(es) + [END] + rest;
      case Stamp(vs) => UnpackStampPack(vs, rest);
    }
  }

  lemma {:induction false} UnpackNestedPack(es: seq<Element>, rest: Bytes)
    requires Delimited(rest)
    ensures UnpackNested(Pack(es) + [END] + rest) == Some((es, rest))
    decreases es, 0
  {
    var b := Pack(es) + [END] + rest;
    if es == [] {
      assert b == [END] + rest;
    } else {
      var tail := Pack(es[1..]) + [END] + rest;
      assert b == PackElement(es[0]) + tail;
      PackDelimited(es[1..]);
      UnpackElementPack(es[0], tail);
      UnpackNestedPack(es[1..], rest);
      assert es == [es[0]] + es[1..];
    }
  }

  /** Unpacking undoes packing, for every tuple. */
  lemma {:induction false} UnpackPack(es: seq<Element>)
    ensures Unpack(Pack(es)) == Some(es)
  {
    if es != [] {
      PackDelimited(es[1..]);
      UnpackElementPack(es[0], Pack(es[1..]));
      UnpackPack(es[1..]);
      assert es == [es[0]] + es[1..];
    }
  }

  lemma {:induction false} PackInjective(es: seq<Element>, fs: seq<Element>)
    ensures Pack(es) == Pack(fs) <==> es == fs
  {
    UnpackPack(es);
    UnpackPack(fs);
  }

  // -------------------------------------------------------------------------
  // Order preservation
  // -------------------------------------------------------------------------

  predicate ElementLess(x: Element, y: Element)
    decreases x, 1
  {
    x.Code() < y.Code() ||
    match (x, y)
    case (Bin(a), Bin(b)) => Less(a, b)
    case (Str(a), Str(b)) => Less(a, b)
    case (Nested(a), Nested(b)) => TupleLess(a, b)
    case (Stamp(a), Stamp(b)) => Less(a, b)
    case _ => false
  }

  /** The order of tuples: element by element, a proper prefix first. */
  predicate TupleLess(es: seq<Element>, fs: seq<Element>)
    decreases es, 0
  {
    fs != [] && (es == [] || ElementLess(es[0], fs[0]) || (es[0] == fs[0] && TupleLess(es[1..], fs[1..])))
  }

  lemma {:induction false} ElementTotal(x: Element, y: Element)
    ensures x == y || ElementLess(x, y) || ElementLess(y, x)
    decreases x, 1
  {
    match (x, y)
    case (Bin(a), Bin(b)) => LessTotal(a, b);
    case (Str(a), Str(b)) => LessTotal(a, b);
    case (Nested(a), Nested(b)) => TupleTotal(a, b);
    case (Stamp(a), Stamp(b)) => LessTotal(a, b);
    case _ =>
  }

  lemma {:induction false} TupleTotal(es: seq<Element>, fs: seq<Element>)
    ensures es == fs || TupleLess(es, fs) || TupleLess(fs, es)
    decreases es, 0
  {
    if es != [] && fs != [] {
      ElementTotal(es[0], fs[0]);
      if es[0] == fs[0] {
        TupleTotal(es[1..], fs[1..]);
        assert es == [es[0]] + es[1..] && fs == [fs[0]] + fs[1..];
      }
    }
  }

  function EscapeByte(b: byte): Bytes {
    if b == END then [END, ESCAPE] else [b]
  }

  /** An escaped string, its end, and what follows it. */
  function Closed(s: Bytes, rest: Bytes): Bytes {
    Escape(s) + ([END] + rest)
  }

  lemma {:induction false} ClosedCons(s: Bytes, rest: Bytes)
    requires s != []
    ensures Closed(s, rest) == EscapeByte(s[0]) + Closed(s[1..], rest)
  {
  }

  lemma {:induction false} FirstDecides(a: Bytes, b: Bytes)
    requires a != [] && b != [] && a[0] < b[0]
    ensures Less(a, b)
  {
  }

  /** The end of a string sorts before any further byte of it, the escaped 0x00 included. */
  lemma {:induction false} EndFirst(b: byte, r: Bytes, rest: Bytes)
    requires Delimited(r)
    ensures Less([END] + r, EscapeByte(b) + rest)
  {
    if b == END {
      assert EscapeByte(b) + rest == [END] + ([ESCAPE] + rest);
      LessPrepend([END], r, [ESCAPE] + rest);
      if r != [] {
        FirstDecides(r, [ESCAPE] + rest);
      }
    } else {
      FirstDecides([END] + r, EscapeByte(b) + rest);
    }
  }

  lemma {:induction false} EscapeOrder(s: Bytes, t: Bytes, r: Bytes, q: Bytes)
    requires Less(s, t) && Delimited(r)
    ensures Less(Closed(s, r), Closed(t, q))
  {
    ClosedCons(t, q);
    if s == [] {
      assert Closed(s, r) == [END] + r;
      EndFirst(t[0], r, Closed(t[1..], q));
    } else {
      ClosedCons(s, r);
      if s[0] == t[0] {
        EscapeOrder(s[1..], t[1..], r, q);
        LessPrepend(EscapeByte(s[0]), Closed(s[1..], r), Closed(t[1..], q));
      } else {
        FirstDecides(Closed(s, r), Closed(t, q));
      }
    }
  }

  lemma {:induction false} StringOrder(code: byte, s: Bytes, t: Bytes, r: Bytes, q: Bytes)
    requires Less(s, t) && Delimited(r)
    ensures Less([code] + Escape(s) + [END] + r, [code] + Escape(t) + [END] + q)
  {
    EscapeOrder(s, t, r, q);
    LessPrepend([code], Closed(s, r), Closed(t, q));
    CodeClosed(code, s, r);
    CodeClosed(code, t, q);
  }

  lemma {:induction false} CodeClosed(code: byte, s: Bytes, rest: Bytes)
    ensures [code] + Escape(s) + [END] + rest == [code] + Closed(s, rest)
  {
  }

  lemma {:induction false} StampOrder(s: Versionstamp, t: Versionstamp, r: Bytes, q: Bytes)
    requires Less(s, t)
    ensures Less([STAMP_CODE] + s + r, [STAMP_CODE] + t + q)
  {
    LessAsymmetric(s, t);
    LessAppend(s, t, r, q);
    LessPrepend([STAMP_CODE], s + r, t + q);
    assert [STAMP_CODE] + s + r == [STAMP_CODE] + (s + r) && [STAMP_CODE] + t + q == [STAMP_CODE] + (t + q);
  }

  lemma {:induction false} ElementOrder(x: Element, y: Element, r: Bytes, q: Bytes)
    requires ElementLess(x, y) && Delimited(r)
    ensures Less(PackElement(x) + r, PackElement(y) + q)
    decreases x, 1
  {
    if x.Code() == y.Code() {
      match (x, y) {
        case (Bin(s), Bin(t)) => StringOrder(BYTES_CODE, s, t, r, q);
        case (Str(s), Str(t)) => StringOrder(STRING_CODE, s, t, r, q);
        case (Nested(s), Nested(t)) => NestedOrder(s, t, r, q);
        case (Stamp(s), Stamp(t)) => StampOrder(s, t, r, q);
      }
    } else {
      FirstDecides(PackElement(x) + r, PackElement(y) + q);
    }
  }

  lemma {:induction false} NestedOrder(s: seq<Element>, t: seq<Element>, r: Bytes, q: Bytes)
    requires TupleLess(s, t)
    ensures Less([NESTED_CODE] + Pack(s) + [END] + r, [NESTED_CODE] + Pack(t) + [END] + q)
    decreases s, 1
  {
    TupleOrder(s, t, [END] + r, [END] + q);
    LessPrepend([NESTED_CODE], Pack(s) + ([END] + r), Pack(t) + ([END] + q));
    assert [NESTED_CODE] + Pack(s) + [END] + r == [NESTED_CODE] + (Pack(s) + ([END] + r));
    assert [NESTED_CODE] + Pack(t) + [END] + q == [NESTED_CODE] + (Pack(t) + ([END] + q));
  }

  /** Ends of tuples: both nothing (top level) or both the closing 0x00 (nested). */
  lemma {:induction false} TupleOrder(es: seq<Element>, fs: seq<Element>, r: Bytes, q: Bytes)
    requires TupleLess(es, fs)
    requires r == [] || r[0] == END
    ensures Less(Pack(es) + r, Pack(fs) + q)
    decreases es, 0
  {
    assert Pack(fs) + q == PackElement(fs[0]) + (Pack(fs[1..]) + q);
    if es == [] {
      assert Pack(es) + r == r;
    } else {
      assert Pack(es) + r == PackElement(es[0]) + (Pack(es[1..]) + r);
      if ElementLess(es[0], fs[0]) {
        PackDelimited(es[1..]);
        ElementOrder(es[0], fs[0], Pack(es[1..]) + r, Pack(fs[1..]) + q);
      } else {
        TupleOrder(es[1..], fs[1..], r, q);
        LessPrepend(PackElement(es[0]), Pack(es[1..]) + r, Pack(fs[1..]) + q);
      }
    }
  }

  /** Byte order on packed tuples is tuple order, 0x00 bytes in strings included. */
  lemma {:induction false} PackOrder(es: seq<Element>, fs: seq<Element>)
    ensures Less(Pack(es), Pack(fs)) <==> TupleLess(es, fs)
  {
    assert forall t: seq<Element> :: Pack(t) + [] == Pack(t);
    if TupleLess(es, fs) {
      TupleOrder(es, fs, [], []);
    } else {
      TupleTotal(es, fs);
      if es == fs {
        LessIrreflexive(Pack(es));
      } else {
        TupleOrder(fs, es, [], []);
        LessAsymmetric(Pack(fs), Pack(es));
      }
    }
  }

  // -------------------------------------------------------------------------
  // Byte prefixes of packed tuples
  // -------------------------------------------------------------------------

  /** `t` is `s`, then a 0x00 byte, then anything: the one way in which an
      encoded string is a byte prefix of another. */
  ghost predicate NulExtends(t: Bytes, s: Bytes) {
    s + [END] <= t
  }

  /** Strings as tuple elements. */
  function Strs(ss: seq<Bytes>): (r: seq<Element>)
    ensures |r| == |ss| && forall i :: 0 <= i < |ss| ==> r[i] == Str(ss[i])
  {
    seq(|ss|, i requires 0 <= i < |ss| => Str(ss[i]))
  }

  /** Equal to `s`, or extended by 0x00: first byte and rest. */
  lemma {:induction false} ContinuesCons(t: Bytes, s: Bytes)
    requires s != [] && t != []
    ensures t == s || NulExtends(t, s) <==> s[0] == t[0] && (t[1..] == s[1..] || NulExtends(t[1..], s[1..]))
  {
    assert s + [END] == [s[0]] + (s[1..] + [END]);
    assert s == [s[0]] + s[1..] && t == [t[0]] + t[1..];
    PrefixPrepend([t[0]], s[1..] + [END], t[1..]);
  }

  lemma {:induction false} EqualHeads(t: Bytes, s: Bytes)
    requires s != [] && t != []
    ensures t == s <==> s[0] == t[0] && t[1..] == s[1..]
  {
    assert s == [s[0]] + s[1..] && t == [t[0]] + t[1..];
  }

  lemma {:induction false} ClosedHeads(s: Bytes, tail: Bytes, t: Bytes, rest: Bytes)
    requires s != [] && t != []
    ensures Closed(s, tail) <= Closed(t, rest) <==> s[0] == t[0] && Closed(s[1..], tail) <= Closed(t[1..], rest)
  {
    ClosedCons(s, tail);
    ClosedCons(t, rest);
    if s[0] == t[0] {
      PrefixPrepend(EscapeByte(s[0]), Closed(s[1..], tail), Closed(t[1..], rest));
    } else {
      assert Closed(s, tail)[0] == s[0] && Closed(t, rest)[0] == t[0];
    }
  }

  lemma {:induction false} ClosedLonger(s: Bytes, tail: Bytes, rest: Bytes)
    requires s != [] && Delimited(rest)
    ensures !(Closed(s, tail) <= Closed([], rest))
  {
    ClosedCons(s, tail);
    var a, b := Closed(s, tail), Closed([], rest);
    assert b == [END] + rest && |a| >= 2;
    assert a[0] != b[0] || |b| < |a| || a[1] != b[1];
  }

  lemma {:induction false} ClosedShorter(tail: Bytes, t: Bytes, rest: Bytes)
    requires t != [] && Delimited(tail)
    ensures Closed([], tail) <= Closed(t, rest) <==> tail == [] && t[0] == END
  {
    ClosedCons(t, rest);
    var a, b := Closed([], tail), Closed(t, rest);
    assert a == [END] + tail && |b| >= 2;
    assert a[0] != b[0] || |a| == 1 || a[1] != b[1];
  }

  /** At the end of a tuple the string may go on, if it does so with a 0x00. */
  lemma {:induction false} EscapePrefix(s: Bytes, t: Bytes, rest: Bytes)
    requires Delimited(rest)
    ensures Closed(s, []) <= Closed(t, rest) <==> t == s || NulExtends(t, s)
  {
    if s != [] && t != [] {
      EscapePrefix(s[1..], t[1..], rest);
      ClosedHeads(s, [], t, rest);
      ContinuesCons(t, s);
    } else if t != [] {
      ClosedShorter([], t, rest);
    } else if s != [] {
      ClosedLonger(s, [], rest);
    }
  }

  /** Inside a tuple (something other than 0xFF follows) the string itself is fixed. */
  lemma {:induction false} EscapePrefixExact(s: Bytes, tail: Bytes, t: Bytes, rest: Bytes)
    requires Delimited(rest) && tail != [] && tail[0] != ESCAPE
    ensures Closed(s, tail) <= Closed(t, rest) <==> t == s && tail <= rest
  {
    if s != [] && t != [] {
      EscapePrefixExact(s[1..], tail, t[1..], rest);
      ClosedHeads(s, tail, t, rest);
      EqualHeads(t, s);
    } else if t != [] {
      ClosedShorter(tail, t, rest);
    } else if s != [] {
      ClosedLonger(s, tail, rest);
    } else {
      PrefixPrepend(Escape(s), [END] + tail, [END] + rest);
      PrefixPrepend([END], tail, rest);
    }
  }

  lemma {:induction false} PackString(s: Bytes, es: seq<Element>)
    ensures Pack([Str(s)] + es) == [STRING_CODE] + Closed(s, Pack(es))
  {
    PackCons(Str(s), es);
  }

  /**
   A packed tuple of strings is a byte prefix of a packed tuple exactly when all
   strings but the last are equal and the last one is equal or extended by 0x00.
   */
  lemma {:induction false} PackPrefix(ss: seq<Bytes>, fs: seq<Element>)
    requires ss != []
    ensures Pack(Strs(ss)) <= Pack(fs) <==>
              var n := |ss| - 1;
              && |ss| <= |fs|
              && Strs(ss[..n]) == fs[..n]
              && fs[n].Str?
              && (fs[n].s == ss[n] || NulExtends(fs[n].s, ss[n]))
  {
    if fs == [] || !fs[0].Str? {
      assert Strs(ss)[0] == Str(ss[0]) && (fs != [] ==> Pack(fs)[0] == fs[0].Code());
    } else {
      PackHeads(ss, fs);
      PackDelimited(fs[1..]);
      if |ss| == 1 {
        EscapePrefix(ss[0], fs[0].s, Pack(fs[1..]));
        assert Strs(ss[..0]) == fs[..0];
      } else {
        EscapePrefixExact(ss[0], Pack(Strs(ss[1..])), fs[0].s, Pack(fs[1..]));
        PackPrefix(ss[1..], fs[1..]);
        HeadsCons(ss, fs);
      }
    }
  }

  lemma {:induction false} PackHeads(ss: seq<Bytes>, fs: seq<Element>)
    requires ss != [] && fs != [] && fs[0].Str?
    ensures Pack(Strs(ss)) <= Pack(fs) <==>
              Closed(ss[0], Pack(Strs(ss[1..]))) <= Closed(fs[0].s, Pack(fs[1..]))
  {
    assert Strs(ss) == [Str(ss[0])] + Strs(ss[1..]) && fs == [Str(fs[0].s)] + fs[1..];
    PackString(ss[0], Strs(ss[1..]));
    PackString(fs[0].s, fs[1..]);
    PrefixPrepend([STRING_CODE], Closed(ss[0], Pack(Strs(ss[1..]))), Closed(fs[0].s, Pack(fs[1..])));
  }

  lemma {:induction false} HeadsCons(ss: seq<Bytes>, fs: seq<Element>)
    requires |ss| > 1 && fs != []
    ensures |ss| <= |fs| ==>
              var n := |ss| - 1;
              Strs(ss[..n]) == fs[..n] <==> fs[0] == Str(ss[0]) && Strs(ss[1..][..n - 1]) == fs[1..][..n - 1]
  {
    var n := |ss| - 1;
    if |ss| <= |fs| {
      assert Strs(ss[..n]) == [Str(ss[0])] + Strs(ss[1..][..n - 1]);
      assert fs[..n] == [fs[0]] + fs[1..][..n - 1];
    }
  }
}
