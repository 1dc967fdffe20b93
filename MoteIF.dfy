/**
  MoteIF of tinyos3/message/MoteIF.py: the registry of listeners and the
  message classes they accept per active-message type, the fan-out of
  received packets to them, the construction of outgoing packets, and the
  parsing of a source name of the form scheme@arguments.

  The serial packet header belongs to the SerialPacket module, which is not
  part of this model; it is taken here to be the TinyOS 2 serial active
  message header of seven bytes: destination and source (two bytes each,
  most significant first), payload length, group and type.
*/
module MoteIF {
  import opened Wrappers

  // ---------------------------------------------------------------------------
  // The serial header

  const HEADER_SIZE: nat := 7

  datatype Header = Header(dest: Word16, src: Word16, length: Byte, group: Byte, amType: Byte)

  newtype Byte = x: int | 0 <= x < 256
  newtype Word16 = x: int | 0 <= x < 0x1_0000

  function High(x: Word16): Byte { (x / 256) as Byte }
  function Low(x: Word16): Byte { (x % 256) as Byte }
  function Word(hi: Byte, lo: Byte): Word16 { (hi as int * 256 + lo as int) as Word16 }

  lemma WordParts(x: Word16)
    ensures Word(High(x), Low(x)) == x
  {
  }

  lemma PartsOfWord(hi: Byte, lo: Byte)
    ensures High(Word(hi, lo)) == hi && Low(Word(hi, lo)) == lo
  {
  }

  function EncodeHeader(h: Header): (b: seq<Byte>)
    ensures |b| == HEADER_SIZE
  {
    [High(h.dest), Low(h.dest), High(h.src), Low(h.src), h.length, h.group, h.amType]
  }

  function DecodeHeader(b: seq<Byte>): (h: Header)
    requires |b| >= HEADER_SIZE
  {
    Header(Word(b[0], b[1]), Word(b[2], b[3]), b[4], b[5], b[6])
  }

  lemma DecodeEncode(h: Header)
    ensures DecodeHeader(EncodeHeader(h)) == h
  {
    WordParts(h.dest);
    WordParts(h.src);
  }

  lemma EncodeDecode(b: seq<Byte>)
    requires |b| >= HEADER_SIZE
    ensures EncodeHeader(DecodeHeader(b)) == b[..HEADER_SIZE]
  {
    PartsOfWord(b[0], b[1]);
    PartsOfWord(b[2], b[3]);
  }

  // ---------------------------------------------------------------------------
  // Messages, listeners and the registry

  /** A message class: what get_amType returns, and a name to tell classes apart. */
  datatype MsgClass = MsgClass(name: string, amType: nat)

  /** A message built by msgClass(data=..., data_length=..., addr=..., gid=...). */
  datatype Message = Message(cls: MsgClass, data: seq<Byte>, dataLength: nat, addr: Word16, gid: Byte)

  datatype Listener = Listener(id: nat)

  /** One call l.receive(source, msg). */
  datatype Receive = Receive(listener: Listener, source: nat, msg: Message)

  /** The message a listener receives for class cls under header h. */
  function MessageFor(cls: MsgClass, h: Header, data: seq<Byte>): (m: Message)
    ensures m.cls == cls && m.data == data && m.dataLength == |m.data| && m.addr == h.src && m.gid == h.group
  {
    Message(cls, data, |data|, h.src, h.group)
  }

  /** The receive calls for the listeners of order, in that order, that accept type amType. */
  function Deliveries(order: seq<Listener>, listeners: map<Listener, map<nat, MsgClass>>,
                      source: nat, h: Header, data: seq<Byte>): (calls: seq<Receive>)
    requires forall l :: l in order ==> l in listeners
  {
    if order == [] then []
    else
      var l := order[0];
      var first := if h.amType as nat in listeners[l]
        then [Receive(l, source, MessageFor(listeners[l][h.amType as nat], h, data))] else [];
      first + Deliveries(order[1..], listeners, source, h, data)
  }

  lemma {:induction false} DeliveriesSnoc(order: seq<Listener>, l: Listener, listeners: map<Listener, map<nat, MsgClass>>,
                                          source: nat, h: Header, data: seq<Byte>)
    requires forall k :: k in order + [l] ==> k in listeners
    ensures Deliveries(order + [l], listeners, source, h, data) ==
      Deliveries(order, listeners, source, h, data) +
      (if h.amType as nat in listeners[l]
        then [Receive(l, source, MessageFor(listeners[l][h.amType as nat], h, data))] else [])
    decreases |order|
  {
    if order == [] {
      assert order + [l] == [l];
      assert [l][1..] == [];
    } else {
      assert (order + [l])[1..] == order[1..] + [l];
      DeliveriesSnoc(order[1..], l, listeners, source, h, data);
    }
  }

  /** How many of the calls go to listener l. */
  function CallsTo(calls: seq<Receive>, l: Listener): nat {
    if calls == [] then 0 else (if calls[0].listener == l then 1 else 0) + CallsTo(calls[1..], l)
  }

  lemma {:induction false} CallsToAppend(a: seq<Receive>, b: seq<Receive>, l: Listener)
    ensures CallsTo(a + b, l) == CallsTo(a, l) + CallsTo(b, l)
    decreases |a|
  {
    if a == [] {
      assert a + b == b;
    } else {
      assert (a + b)[1..] == a[1..] + b;
      CallsToAppend(a[1..], b, l);
    }
  }

  predicate Distinct(order: seq<Listener>) {
    forall i, j :: 0 <= i < j < |order| ==> order[i] != order[j]
  }

  /**
    Each listener of a duplicate-free order is called exactly once if its
    map has the packet's type, and not at all otherwise; a listener outside
    the order is never called.
  */
  lemma {:induction false} DeliveriesExactlyOnce(order: seq<Listener>, listeners: map<Listener, map<nat, MsgClass>>,
                                                 source: nat, h: Header, data: seq<Byte>, l: Listener)
    requires forall k :: k in order ==> k in listeners
    requires Distinct(order)
    ensures CallsTo(Deliveries(order, listeners, source, h, data), l) ==
      if l in order && h.amType as nat in listeners[l] then 1 else 0
    decreases |order|
  {
    if order != [] {
      var first := if h.amType as nat in listeners[order[0]]
        then [Receive(order[0], source, MessageFor(listeners[order[0]][h.amType as nat], h, data))] else [];
      assert Deliveries(order, listeners, source, h, data) == first + Deliveries(order[1..], listeners, source, h, data);
      CallsToAppend(first, Deliveries(order[1..], listeners, source, h, data), l);
      assert Distinct(order[1..]) by {
        forall i, j | 0 <= i < j < |order[1..]| ensures order[1..][i] != order[1..][j] {
          assert order[1..][i] == order[i + 1] && order[1..][j] == order[j + 1];
        }
      }
      DeliveriesExactlyOnce(order[1..], listeners, source, h, data, l);
      if l == order[0] {
        assert l !in order[1..] by {
          forall k | 0 <= k < |order[1..]| ensures order[1..][k] != l {
            assert order[1..][k] == order[k + 1];
          }
        }
      }
      assert l in order <==> l == order[0] || l in order[1..];
    }
  }

  /** Every call carries the packet's source, data, length, src address and group, and the class registered for its type. */
  lemma {:induction false} DeliveriesCarry(order: seq<Listener>, listeners: map<Listener, map<nat, MsgClass>>,
                                           source: nat, h: Header, data: seq<Byte>)
    requires forall k :: k in order ==> k in listeners
    ensures forall c :: c in Deliveries(order, listeners, source, h, data) ==>
      c.listener in order && h.amType as nat in listeners[c.listener] &&
      c.source == source && c.msg == MessageFor(listeners[c.listener][h.amType as nat], h, data)
    decreases |order|
  {
    if order != [] {
      DeliveriesCarry(order[1..], listeners, source, h, data);
    }
  }

  /** Why a packet could not be dispatched: shorter than the type byte and the header. */
  datatype DispatchError = ShortPacket

  /**
    The header of a received packet follows its first byte (the serial
    active-message type); the data starts after the header and runs for the
    header's length, cut short by the end of the packet as a Python slice is.
  */
  function PacketData(packet: seq<Byte>): (d: seq<Byte>)
    requires |packet| >= 1 + HEADER_SIZE
    ensures var h := DecodeHeader(packet[1..]);
      |d| == if 1 + HEADER_SIZE + h.length as nat <= |packet| then h.length as nat else |packet| - 1 - HEADER_SIZE
    ensures d <= packet[1 + HEADER_SIZE..]
  {
    var start := 1 + HEADER_SIZE;
    var h := DecodeHeader(packet[1..]);
    var end := if start + h.length as nat <= |packet| then start + h.length as nat else |packet|;
    packet[start..end]
  }

  // ---------------------------------------------------------------------------
  // The MoteIF object

  /** The object dest.writePacket is called on. */
  class Destination {
    var packets: seq<seq<Byte>>

    constructor ()
      ensures packets == []
    {
      packets := [];
    }

    method WritePacket(packet: seq<Byte>)
      modifies this
      ensures packets == old(packets) + [packet]
    {
      packets := packets + [packet];
    }
  }

  class Registry {
    /** The listeners dictionary: listener to (amType to message class). */
    var listeners: map<Listener, map<nat, MsgClass>>
    /** The dictionary's keys in insertion order, the order Python iterates them in. */
    var order: seq<Listener>

    ghost predicate Valid()
      reads this
    {
      Distinct(order) && (forall l :: l in listeners <==> l in order)
    }

    /** __init__: no listeners. */
    constructor ()
      ensures Valid() && listeners == map[] && order == []
    {
      listeners := map[];
      order := [];
    }

    /**
      addListener: the listener's map gets the message class under its
      amType, replacing an earlier class for that type; a new listener starts
      with an empty map and goes to the end of the iteration order.
    */
    method AddListener(listener: Listener, cls: MsgClass)
      requires Valid()
      modifies this
      ensures Valid()
      ensures var known := if listener in old(listeners) then old(listeners)[listener] else map[];
        listeners == old(listeners)[listener := known[cls.amType := cls]]
      ensures order == if listener in old(listeners) then old(order) else old(order) + [listener]
    {
      if listener !in listeners {
        listeners := listeners[listener := map[]];
        order := order + [listener];
      }
      var amTypes := listeners[listener];
      listeners := listeners[listener := amTypes[cls.amType := cls]];
    }

    /** removeListener: every registration of the listener goes; an unknown listener is a KeyError. */
    method RemoveListener(listener: Listener) returns (r: Outcome<string>)
      requires Valid()
      modifies this
      ensures Valid()
      ensures r.Fail? <==> listener !in old(listeners)
      ensures r.Fail? ==> listeners == old(listeners) && order == old(order)
      ensures r.Pass? ==> listeners == old(listeners) - {listener} && order == Without(old(order), listener)
    {
      if listener !in listeners {
        return Fail("KeyError");
      }
      WithoutKeeps(order, listener);
      listeners := listeners - {listener};
      order := Without(order, listener);
      return Pass;
    }

    /**
      dispatchPacket: decode the header after the first byte, cut out the
      data, and call receive once on each listener, in iteration order, whose
      map has the packet's type, with a message of the class registered for
      it. The calls are returned in the order they are made.
    */
    method DispatchPacket(source: nat, packet: seq<Byte>) returns (r: Result<seq<Receive>, DispatchError>)
      requires Valid()
      ensures r.Err? <==> |packet| < 1 + HEADER_SIZE
      ensures r.Ok? ==> r.value == Deliveries(order, listeners, source, DecodeHeader(packet[1..]), PacketData(packet))
    {
      if |packet| < 1 + HEADER_SIZE {
        return Err(ShortPacket);
      }
      var h := DecodeHeader(packet[1..]);
      var data := PacketData(packet);
      var calls: seq<Receive> := [];
      var i := 0;
      while i < |order|
        invariant 0 <= i <= |order|
        invariant calls == Deliveries(order[..i], listeners, source, h, data)
      {
        var l := order[i];
        assert order[..i + 1] == order[..i] + [l];
        DeliveriesSnoc(order[..i], l, listeners, source, h, data);
        var amTypes := listeners[l];
        if h.amType as nat in amTypes {
          var msg := MessageFor(amTypes[h.amType as nat], h, data);
          calls := calls + [Receive(l, source, msg)];
        }
        i := i + 1;
      }
      assert order[..i] == order;
      return Ok(calls);
    }

    /** sendMsg: build the packet for the payload and hand it to dest.writePacket. */
    method SendMsg(dest: Destination, amId: Byte, addr: Word16, amType: Byte, group: Byte, payload: seq<Byte>)
      modifies dest
      ensures dest.packets == old(dest.packets) + [Outgoing(amId, addr, amType, group, payload)]
    {
      var packet := Outgoing(amId, addr, amType, group, payload);
      dest.WritePacket(packet);
    }
  }

  /** The sequence without the element x. */
  function Without(s: seq<Listener>, x: Listener): (r: seq<Listener>) {
    if s == [] then [] else (if s[0] == x then [] else [s[0]]) + Without(s[1..], x)
  }

  lemma {:induction false} WithoutKeeps(s: seq<Listener>, x: Listener)
    requires Distinct(s)
    ensures forall l :: l in Without(s, x) <==> l in s && l != x
    ensures Distinct(Without(s, x))
    decreases |s|
  {
    if s != [] {
      assert Distinct(s[1..]) by {
        forall i, j | 0 <= i < j < |s[1..]| ensures s[1..][i] != s[1..][j] {
          assert s[1..][i] == s[i + 1] && s[1..][j] == s[j + 1];
        }
      }
      WithoutKeeps(s[1..], x);
      assert s[0] !in s[1..] by {
        forall k | 0 <= k < |s[1..]| ensures s[1..][k] != s[0] {
          assert s[1..][k] == s[k + 1];
        }
      }
      var head := if s[0] == x then [] else [s[0]];
      assert Without(s, x) == head + Without(s[1..], x);
      forall l ensures l in Without(s, x) <==> l in s && l != x {
        assert l in s <==> l == s[0] || l in s[1..];
      }
      forall i, j | 0 <= i < j < |Without(s, x)| ensures Without(s, x)[i] != Without(s, x)[j] {
        var w := Without(s, x);
        if head != [] && i == 0 {
          assert w[j] in Without(s[1..], x) by { assert w[j] == Without(s[1..], x)[j - 1]; }
        } else if head != [] {
          assert w[i] == Without(s[1..], x)[i - 1] && w[j] == Without(s[1..], x)[j - 1];
        } else {
          assert w == Without(s[1..], x);
        }
      }
    }
  }

  // ---------------------------------------------------------------------------
  // Outgoing packets

  /**
    The packet sendMsg hands to dest.writePacket: the serial active-message
    type byte, the header with the destination, group, type and the
    payload's length (one byte, so modulo 256; the source address stays 0),
    then the payload.
  */
  function Outgoing(amId: Byte, addr: Word16, amType: Byte, group: Byte, payload: seq<Byte>): (p: seq<Byte>)
    ensures |p| == 1 + HEADER_SIZE + |payload|
    ensures p[0] == amId && p[1 + HEADER_SIZE..] == payload
    ensures p[1..1 + HEADER_SIZE] == EncodeHeader(Header(addr, 0, (|payload| % 256) as Byte, group, amType))
  {
    [amId] + EncodeHeader(Header(addr, 0, (|payload| % 256) as Byte, group, amType)) + payload
  }

  /**
    A packet sendMsg builds, dispatched on the receiving side: its header
    decodes to the destination, group, type and length it was built with, and
    the data is the payload when the payload fits the one-byte length.
  */
  lemma SendThenDispatch(amId: Byte, addr: Word16, amType: Byte, group: Byte, payload: seq<Byte>)
    requires |payload| < 256
    ensures var p := Outgoing(amId, addr, amType, group, payload);
      DecodeHeader(p[1..]) == Header(addr, 0, |payload| as Byte, group, amType) &&
      PacketData(p) == payload
  {
    var p := Outgoing(amId, addr, amType, group, payload);
    var h := Header(addr, 0, |payload| as Byte, group, amType);
    DecodePrefix(p[1..]);
    assert p[1..][..HEADER_SIZE] == p[1..1 + HEADER_SIZE];
    DecodeEncode(h);
    assert PacketData(p) == p[1 + HEADER_SIZE..|p|];
  }

  /** The packet of tests/test_moteif.py: destination 1, type 2, group 3, payload 1 2 3. */
  lemma SendMsgExample(amId: Byte)
    ensures Outgoing(amId, 1, 2, 3, [1, 2, 3]) == [amId, 0, 1, 0, 0, 3, 3, 2, 1, 2, 3]
  {
  }

  /** Only the first seven bytes are part of the header. */
  lemma DecodePrefix(b: seq<Byte>)
    requires |b| >= HEADER_SIZE
    ensures DecodeHeader(b) == DecodeHeader(b[..HEADER_SIZE])
  {
  }

  // ---------------------------------------------------------------------------
  // Source names

  /** The errors of addSource: a name without '@', and an unusable scheme. */
  datatype SourceError = BaseSource(name: string) | BadSource

  /** The sources addSource can start, with the argument string after '@'. */
  datatype Source = SfSource(args: string) | SerialSource(args: string)

  /** The index of the first '@', if any. */
  function FirstAt(s: string): (i: Option<nat>)
    ensures i.Some? ==> i.value < |s| && s[i.value] == '@' && '@' !in s[..i.value]
    ensures i.None? <==> '@' !in s
  {
    if s == [] then None
    else if s[0] == '@' then Some(0)
    else match FirstAt(s[1..]) {
      case Some(k) => assert s[..k + 1] == [s[0]] + s[1..][..k]; Some(k + 1)
      case None => None
    }
  }

  /** What (.*) matches: everything up to the first line break. */
  function Line(s: string): (l: string)
    ensures l <= s && '\n' !in l
    ensures |l| < |s| ==> s[|l|] == '\n'
  {
    if s == [] || s[0] == '\n' then [] else [s[0]] + Line(s[1..])
  }

  /**
    re.match(r"([^@]*)@(.*)", name): the scheme is everything before the
    first '@' and the argument is the rest of that line.
  */
  function SplitName(name: string): (r: Result<(string, string), SourceError>)
    ensures r.Err? <==> '@' !in name
    ensures r.Err? ==> r.error == BaseSource(name)
    ensures r.Ok? ==> var (scheme, args) := r.value;
      |scheme| < |name| && '@' !in scheme && name[..|scheme| + 1] == scheme + "@" &&
      args == Line(name[|scheme| + 1..])
  {
    match FirstAt(name) {
      case None => Err(BaseSource(name))
      case Some(i) =>
        assert name[..i + 1] == name[..i] + "@";
        Ok((name[..i], Line(name[i + 1..])))
    }
  }

  /**
    addSource's choice of source. A missing name falls back to the MOTECOM
    environment value (motecom), and without that to "sf@localhost:9002".
    serialAvailable says whether the serial source module could be imported.
  */
  function SelectSource(name: Option<string>, motecom: Option<string>, serialAvailable: bool): (r: Result<Source, SourceError>)
  {
    var n := if name.Some? then name.value else if motecom.Some? then motecom.value else "sf@localhost:9002";
    match SplitName(n) {
      case Err(e) => Err(e)
      case Ok((scheme, args)) =>
        if scheme == "sf" then Ok(SfSource(args))
        else if scheme == "serial" && serialAvailable then Ok(SerialSource(args))
        else Err(BadSource)
    }
  }

  /** The scheme decides the source: sf always, serial only when available, nothing else. */
  lemma SchemeSelects(name: string, serialAvailable: bool, scheme: string, args: string)
    requires SplitName(name) == Ok((scheme, args))
    ensures SelectSource(Some(name), None, serialAvailable) ==
      if scheme == "sf" then Ok(SfSource(args))
      else if scheme == "serial" && serialAvailable then Ok(SerialSource(args))
      else Err(BadSource)
  {
  }

  /** A name without '@' is refused before any scheme is looked at. */
  lemma NoAtIsBaseSource(name: string, motecom: Option<string>, serialAvailable: bool)
    requires '@' !in name
    ensures SelectSource(Some(name), motecom, serialAvailable) == Err(BaseSource(name))
  {
  }

  /** Splitting undoes joining a scheme without '@' and a one-line argument. */
  lemma SplitJoined(scheme: string, args: string)
    requires '@' !in scheme && '\n' !in args
    ensures SplitName(scheme + "@" + args) == Ok((scheme, args))
  {
    var n := scheme + "@" + args;
    FirstAtAfter(scheme, args);
    assert n[..|scheme|] == scheme;
    assert n[|scheme| + 1..] == args;
    LineWithoutBreak(args);
  }

  lemma {:induction false} FirstAtAfter(scheme: string, args: string)
    requires '@' !in scheme
    ensures FirstAt(scheme + "@" + args) == Some(|scheme|)
    decreases |scheme|
  {
    if scheme == [] {
      assert (scheme + "@" + args)[0] == '@';
    } else {
      assert (scheme + "@" + args)[1..] == scheme[1..] + "@" + args;
      FirstAtAfter(scheme[1..], args);
    }
  }

  lemma {:induction false} LineWithoutBreak(s: string)
    requires '\n' !in s
    ensures Line(s) == s
    decreases |s|
  {
    if s != [] {
      LineWithoutBreak(s[1..]);
      assert [s[0]] + s[1..] == s;
    }
  }

  /**
    The names addSource accepts: "sf@" followed by one line of arguments
    gives the forwarder source with those arguments, "serial@" the serial
    source when it is available and a refusal otherwise.
  */
  lemma SourceNames(args: string, motecom: Option<string>, serialAvailable: bool)
    requires '\n' !in args
    ensures SelectSource(Some("sf@" + args), motecom, serialAvailable) == Ok(SfSource(args))
    ensures SelectSource(Some("serial@" + args), motecom, serialAvailable) ==
      if serialAvailable then Ok(SerialSource(args)) else Err(BadSource)
  {
    assert "sf@" + args == "sf" + "@" + args;
    assert "serial@" + args == "serial" + "@" + args;
    SplitJoined("sf", args);
    SplitJoined("serial", args);
  }

  /**
    Conversely, a source is chosen only for a name of that form: the scheme
    and '@' start the name, and the arguments are the rest of its first line.
  */
  lemma SelectedNames(name: string, motecom: Option<string>, serialAvailable: bool)
    ensures var r := SelectSource(Some(name), motecom, serialAvailable);
      (r.Ok? && r.value.SfSource? ==> |name| >= 3 && name[..3] == "sf@" && r.value.args == Line(name[3..])) &&
      (r.Ok? && r.value.SerialSource? ==> serialAvailable && |name| >= 7 && name[..7] == "serial@" && r.value.args == Line(name[7..]))
  {
  }

  /** Without a name or MOTECOM, the forwarder at localhost:9002 is chosen. */
  lemma DefaultSource(serialAvailable: bool)
    ensures SelectSource(None, None, serialAvailable) == Ok(SfSource("localhost:9002"))
  {
    assert "sf@localhost:9002" == "sf" + "@" + "localhost:9002";
    SplitJoined("sf", "localhost:9002");
  }

  /** Without a name, MOTECOM is used as if it had been given. */
  lemma MissingNameUsesMotecom(motecom: string, serialAvailable: bool)
    ensures SelectSource(None, Some(motecom), serialAvailable) == SelectSource(Some(motecom), None, serialAvailable)
  {
  }
}
