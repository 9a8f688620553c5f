/** The exchange of parameters: a server that has run other tests before agrees with its client on
    everything the exchange covers, because it resets what an earlier test has set. */
module Parameters {
  import opened Bytes
  import opened JsonValue
  import JsonEquality
  import JsonText
  import Results

  /** The parameters, and the keys they go under. */
  datatype Key = Tcp | Udp | Omit | Duration | Num | Blockcount | Mss | Nodelay | Parallel | Reverse | Bidirectional
    | Window | Len | Bandwidth | Fqrate | PacingTimer | Burst | Tos | Flowlabel | GetServerOutput | UdpCounters64bit
    | RepeatingPayload

  function Name(k: Key): bytes {
    match k
    case Tcp => [116, 99, 112]
    case Udp => [117, 100, 112]
    case Omit => [111, 109, 105, 116]
    case Duration => [116, 105, 109, 101]
    case Num => [110, 117, 109]
    case Blockcount => [98, 108, 111, 99, 107, 99, 111, 117, 110, 116]
    case Mss => [77, 83, 83]
    case Nodelay => [110, 111, 100, 101, 108, 97, 121]
    case Parallel => [112, 97, 114, 97, 108, 108, 101, 108]
    case Reverse => [114, 101, 118, 101, 114, 115, 101]
    case Bidirectional => [98, 105, 100, 105, 114, 101, 99, 116, 105, 111, 110, 97, 108]
    case Window => [119, 105, 110, 100, 111, 119]
    case Len => [108, 101, 110]
    case Bandwidth => [98, 97, 110, 100, 119, 105, 100, 116, 104]
    case Fqrate => [102, 113, 114, 97, 116, 101]
    case PacingTimer => [112, 97, 99, 105, 110, 103, 95, 116, 105, 109, 101, 114]
    case Burst => [98, 117, 114, 115, 116]
    case Tos => [84, 79, 83]
    case Flowlabel => [102, 108, 111, 119, 108, 97, 98, 101, 108]
    case GetServerOutput => [103, 101, 116, 95, 115, 101, 114, 118, 101, 114, 95, 111, 117, 116, 112, 117, 116]
    case UdpCounters64bit => [117, 100, 112, 95, 99, 111, 117, 110, 116, 101, 114, 115, 95, 54, 52, 98, 105, 116]
    case RepeatingPayload => [114, 101, 112, 101, 97, 116, 105, 110, 103, 95, 112, 97, 121, 108, 111, 97, 100]
  }

  const SENDER := 1
  const RECEIVER := 0
  const BOTH := -1

  const DEFAULT_TCP_BLKSIZE := 128 * 1024

  // ---------- the keys are distinct ----------

  /** A key told from its length and first letters, ignoring case. */
  function Place(name: bytes): int {
    var n := |name|;
    if n < 2 then -1
    else
      var a, b := JsonEquality.Lower(name[0]), JsonEquality.Lower(name[1]);
      if n == 3 then (if a == 116 && b == 99 then 0 else if a == 117 then 1 else if a == 110 then 4
                      else if a == 109 then 6 else if a == 108 then 12 else 17)
      else if n == 4 then (if a == 111 then 2 else 3)
      else if n == 10 then 5
      else if n == 7 then (if a == 110 then 7 else 9)
      else if n == 8 then 8
      else if n == 13 then 10
      else if n == 6 then (if a == 119 then 11 else 14)
      else if n == 9 then (if a == 98 then 13 else 18)
      else if n == 12 then 15
      else if n == 5 then 16
      else if n == 17 then (if a == 103 then 19 else 21)
      else 20
  }

  function FromPlace(n: int): Key {
    var keys := [Tcp, Udp, Omit, Duration, Num, Blockcount, Mss, Nodelay, Parallel, Reverse, Bidirectional, Window, Len,
                 Bandwidth, Fqrate, PacingTimer, Burst, Tos, Flowlabel, GetServerOutput, UdpCounters64bit,
                 RepeatingPayload];
    if 0 <= n < |keys| then keys[n] else Tcp
  }

  lemma Placed(k: Key)
    ensures FromPlace(Place(Name(k))) == k
  {
    hide Name, Place, FromPlace;
    if k in {Tcp, Udp, Omit, Duration, Num, Blockcount} {
      Placed0(k);
    } else if k in {Mss, Nodelay, Parallel, Reverse, Bidirectional, Window} {
      Placed1(k);
    } else if k in {Len, Bandwidth, Fqrate, PacingTimer, Burst} {
      Placed2(k);
    } else {
      Placed3(k);
    }
  }

  lemma Placed0(k: Key)
    requires k in {Tcp, Udp, Omit, Duration, Num, Blockcount}
    ensures FromPlace(Place(Name(k))) == k
  {
    if k == Tcp {
      assert |Name(Tcp)| == 3;
    } else if k == Udp {
      assert |Name(Udp)| == 3;
    } else if k == Omit {
      assert |Name(Omit)| == 4;
    } else if k == Duration {
      assert |Name(Duration)| == 4;
    } else if k == Num {
      assert |Name(Num)| == 3;
    } else if k == Blockcount {
      assert |Name(Blockcount)| == 10;
    }
  }

  lemma Placed1(k: Key)
    requires k in {Mss, Nodelay, Parallel, Reverse, Bidirectional, Window}
    ensures FromPlace(Place(Name(k))) == k
  {
    if k == Mss {
      assert |Name(Mss)| == 3;
    } else if k == Nodelay {
      assert |Name(Nodelay)| == 7;
    } else if k == Parallel {
      assert |Name(Parallel)| == 8;
    } else if k == Reverse {
      assert |Name(Reverse)| == 7;
    } else if k == Bidirectional {
      assert |Name(Bidirectional)| == 13;
    } else if k == Window {
      assert |Name(Window)| == 6;
    }
  }

  lemma Placed2(k: Key)
    requires k in {Len, Bandwidth, Fqrate, PacingTimer, Burst}
    ensures FromPlace(Place(Name(k))) == k
  {
    if k == Len {
      assert |Name(Len)| == 3;
    } else if k == Bandwidth {
      assert |Name(Bandwidth)| == 9;
    } else if k == Fqrate {
      assert |Name(Fqrate)| == 6;
    } else if k == PacingTimer {
      assert |Name(PacingTimer)| == 12;
    } else if k == Burst {
      assert |Name(Burst)| == 5;
    }
  }

  lemma Placed3(k: Key)
    requires k in {Tos, Flowlabel, GetServerOutput, UdpCounters64bit, RepeatingPayload}
    ensures FromPlace(Place(Name(k))) == k
  {
    if k == Tos {
      assert |Name(Tos)| == 3;
    } else if k == Flowlabel {
      assert |Name(Flowlabel)| == 9;
    } else if k == GetServerOutput {
      assert |Name(GetServerOutput)| == 17;
    } else if k == UdpCounters64bit {
      assert |Name(UdpCounters64bit)| == 18;
    } else if k == RepeatingPayload {
      assert |Name(RepeatingPayload)| == 17;
    }
  }

  /** No two keys are the same but for case. */
  lemma NamesDistinct(a: Key, b: Key)
    requires JsonEquality.SameKey(Name(a), Name(b), false)
    ensures a == b
  {
    hide Name, FromPlace;
    Placed(a);
    Placed(b);
    assert Place(Name(a)) == Place(Name(b));
  }

  // ---------- optional members ----------

  /** A member that is there only sometimes. */
  datatype Field = Field(key: Key, value: Option<Value>)

  function Present(fs: seq<Field>): seq<Member> {
    if fs == [] then []
    else (if fs[0].value.Some? then [Member(Name(fs[0].key), fs[0].value.value)] else []) + Present(fs[1..])
  }

  lemma FindBehind(m: Member, ms: seq<Member>, name: bytes)
    requires !JsonEquality.SameKey(name, m.key, false)
    ensures Results.Item(Object([m] + ms), name) == Results.Item(Object(ms), name)
  {
    assert ([m] + ms)[1..] == ms;
  }

  /** A field in front under another key makes no difference. */
  lemma SkipField(f: Field, fs: seq<Field>, key: Key)
    requires f.key != key
    ensures Results.Item(Object(Present([f] + fs)), Name(key)) == Results.Item(Object(Present(fs)), Name(key))
  {
    hide Name, JsonEquality.SameKey, Results.Item;
    assert ([f] + fs)[1..] == fs;
    if JsonEquality.SameKey(Name(key), Name(f.key), false) {
      NamesDistinct(key, f.key);
    }
    if f.value.Some? {
      FindBehind(Member(Name(f.key), f.value.value), Present(fs), Name(key));
    } else {
      assert [] + Present(fs) == Present(fs);
    }
  }

  /** Looked up by its key, a field is found with its value, or not at all. */
  lemma {:induction false} FieldFound(fs: seq<Field>, i: nat)
    requires i < |fs| && forall k :: 0 <= k < |fs| && k != i ==> fs[k].key != fs[i].key
    ensures Results.Item(Object(Present(fs)), Name(fs[i].key)) == fs[i].value
  {
    hide Name, Results.Item;
    assert fs == [fs[0]] + fs[1..];
    if i > 0 {
      FieldFound(fs[1..], i - 1);
      SkipField(fs[0], fs[1..], fs[i].key);
    } else if fs[0].value.Some? {
      FirstFound(Name(fs[0].key), fs[0].value.value, Present(fs[1..]));
    } else {
      NotFound(fs[1..], fs[0].key);
      assert [] + Present(fs[1..]) == Present(fs[1..]);
    }
  }

  lemma FirstFound(name: bytes, v: Value, ms: seq<Member>)
    ensures Results.Item(Object([Member(name, v)] + ms), name) == Some(v)
  {
    assert JsonEquality.SameKey(name, name, false);
  }

  lemma {:induction false} NotFound(fs: seq<Field>, key: Key)
    requires forall k :: 0 <= k < |fs| ==> fs[k].key != key
    ensures Results.Item(Object(Present(fs)), Name(key)) == None
  {
    if fs != [] {
      hide Name, Results.Item;
      assert fs == [fs[0]] + fs[1..];
      NotFound(fs[1..], key);
      SkipField(fs[0], fs[1..], key);
    }
  }

  // ---------- role, direction and mode ----------

  /** The fields that say who sends, and the calls that set them, each of which sets the mode anew. */
  datatype Modes = Modes(role: char, reverse: bool, bidirectional: bool, mode: int)

  datatype Setting = AsRole(role: char) | AsReverse(on: bool) | AsBidirectional(on: bool)

  /** Of a role that is not yet known nothing follows. */
  function OneWay(role: char, reverse: bool, mode: int): int {
    if role == 'c' then (if reverse then RECEIVER else SENDER)
    else if role == 's' then (if reverse then SENDER else RECEIVER)
    else mode
  }

  function Set(m: Modes, s: Setting): Modes {
    match s
    case AsRole(role) =>
      m.(role := role, mode := if !m.reverse && m.bidirectional then BOTH else OneWay(role, m.reverse, m.mode))
    case AsReverse(on) => m.(reverse := on, mode := OneWay(m.role, on, m.mode))
    case AsBidirectional(on) => m.(bidirectional := on, mode := if on then BOTH else OneWay(m.role, m.reverse, m.mode))
  }

  function SetAll(m: Modes, ss: seq<Setting>): Modes {
    if ss == [] then m else Set(SetAll(m, ss[..|ss| - 1]), ss[|ss| - 1])
  }

  predicate Known(m: Modes) {
    m.role == 'c' || m.role == 's'
  }

  /** The mode is the one the role and the two flags call for. */
  predicate AsFlagged(m: Modes) {
    m.mode == if !m.reverse && m.bidirectional then BOTH else OneWay(m.role, m.reverse, m.mode)
  }

  /** A client sends and a server receives, unless the test is reversed. */
  lemma WhoSends(reverse: bool, mode: int)
    ensures OneWay('c', reverse, mode) == SENDER <==> !reverse
    ensures OneWay('s', reverse, mode) == RECEIVER <==> !reverse
    ensures OneWay('c', reverse, mode) in [SENDER, RECEIVER] && OneWay('s', reverse, mode) in [SENDER, RECEIVER]
  {
  }

  /** One call leaves the mode as the flags call for, unless it sets a bidirectional test to reverse, or
      takes the reverse flag from one that is bidirectional. */
  lemma SetKeepsMode(m: Modes, s: Setting)
    requires Known(m) && (s.AsRole? ==> s.role == 'c' || s.role == 's')
    ensures AsFlagged(Set(m, s)) <==>
      (s.AsReverse? && m.bidirectional ==> s.on) && (s.AsBidirectional? && m.reverse ==> !s.on)
  {
  }

  /** Role and flags may be given in any order, flags also before the role: if they are only ever turned
      on, and not both, the mode is the one they call for. */
  lemma {:induction false} AnyOrder(m: Modes, ss: seq<Setting>)
    requires !Known(m) && !m.reverse && !m.bidirectional
    requires forall i :: 0 <= i < |ss| ==> if ss[i].AsRole? then ss[i].role == 'c' || ss[i].role == 's' else ss[i].on
    ensures var r := SetAll(m, ss); Known(r) && !(r.reverse && r.bidirectional) ==> AsFlagged(r)
  {
    if ss != [] {
      var front, s := ss[..|ss| - 1], ss[|ss| - 1];
      AnyOrder(m, front);
      var r := SetAll(m, front);
      if Known(r) {
        SetKeepsMode(r, s);
      }
    }
  }

  /** So a client and a server with the same flags, however they were given, are in complementary modes. */
  lemma ModesOppose(m: Modes, ss: seq<Setting>, k: Modes, ts: seq<Setting>)
    requires !Known(m) && !m.reverse && !m.bidirectional && !Known(k) && !k.reverse && !k.bidirectional
    requires forall s :: s in ss + ts ==> if s.AsRole? then s.role == 'c' || s.role == 's' else s.on
    requires var a, b := SetAll(m, ss), SetAll(k, ts);
      && a.role == 'c' && b.role == 's' && a.reverse == b.reverse && a.bidirectional == b.bidirectional
      && !(a.reverse && a.bidirectional)
    ensures SetAll(k, ts).mode == Complement(SetAll(m, ss).mode)
  {
    assert forall i :: 0 <= i < |ss| ==> ss[i] in ss + ts;
    assert forall i :: 0 <= i < |ts| ==> ts[i] in ss + ts;
    hide SetAll;
    AnyOrder(m, ss);
    AnyOrder(k, ts);
  }

  // ---------- the parameters of a test ----------

  datatype ProtocolId = Ptcp | Pudp

  /** The fields of iperf_test and its settings that the exchange covers. */
  class Test {
    var role: char
    var mode: int
    var protocol: ProtocolId
    var omit: int
    var duration: int
    var byteLimit: int
    var blockLimit: int
    var mss: int
    var noDelay: bool
    var numStreams: int
    var reverse: bool
    var bidirectional: bool
    var socketBufsize: int
    var blksize: int
    var rate: int
    var fqrate: int
    var pacingTimer: int
    var burst: int
    var tos: int
    var flowlabel: int
    var getServerOutput: bool
    var udpCounters64: bool
    var repeatingPayload: bool

    /** The fields a client fills in, in the ranges of their types; 64-bit counts up to 2^53. */
    ghost predicate InRange()
      reads this
    {
      && Int32(omit) && Int32(duration) && Int32(mss) && Int32(numStreams) && Int32(socketBufsize) && Int32(blksize)
      && Int32(pacingTimer) && Int32(burst) && Int32(tos) && Int32(flowlabel)
      && Results.Exact(byteLimit) && Results.Exact(blockLimit) && Results.Exact(rate) && Results.Exact(fqrate)
    }

    /** The members of send_parameters' object. */
    function Fields(): seq<Field>
      reads this
    {
      [Field(Tcp, Flag(protocol == Ptcp)),
       Field(Udp, Flag(protocol == Pudp)),
       Field(Omit, Count(omit)),
       Field(Duration, Count(duration)),
       Field(Num, Count(byteLimit)),
       Field(Blockcount, Count(blockLimit)),
       Field(Mss, Nonzero(mss)),
       Field(Nodelay, Flag(noDelay)),
       Field(Parallel, Count(numStreams)),
       Field(Reverse, Flag(reverse)),
       Field(Bidirectional, Flag(bidirectional)),
       Field(Window, Nonzero(socketBufsize)),
       Field(Len, Nonzero(blksize)),
       Field(Bandwidth, Nonzero(rate)),
       Field(Fqrate, Nonzero(fqrate)),
       Field(PacingTimer, Nonzero(pacingTimer)),
       Field(Burst, Nonzero(burst)),
       Field(Tos, Nonzero(tos)),
       Field(Flowlabel, Nonzero(flowlabel)),
       Field(GetServerOutput, Nonzero(if getServerOutput then 1 else 0)),
       Field(UdpCounters64bit, Nonzero(if udpCounters64 then 1 else 0)),
       Field(RepeatingPayload, Nonzero(if repeatingPayload then 1 else 0))]
    }

    /** send_parameters. */
    function SendParameters(): Value
      reads this
    {
      Object(Present(Fields()))
    }

    function Direction(): Modes
      reads this`role, this`reverse, this`bidirectional, this`mode
    {
      Modes(role, reverse, bidirectional, mode)
    }

    /** iperf_set_test_reverse. */
    method SetReverse(reverse: bool)
      modifies this`reverse, this`mode
      ensures Direction() == Set(old(Direction()), AsReverse(reverse))
    {
      this.reverse := reverse;
      if !reverse {
        if role == 'c' {
          mode := SENDER;
        } else if role == 's' {
          mode := RECEIVER;
        }
      } else {
        if role == 'c' {
          mode := RECEIVER;
        } else if role == 's' {
          mode := SENDER;
        }
      }
    }

    /** iperf_set_test_bidirectional. */
    method SetBidirectional(bidirectional: bool)
      modifies this`bidirectional, this`reverse, this`mode
      ensures Direction() == Set(old(Direction()), AsBidirectional(bidirectional))
    {
      this.bidirectional := bidirectional;
      if bidirectional {
        mode := BOTH;
      } else {
        SetReverse(reverse);
      }
    }

    /** iperf_set_test_role. */
    method SetRole(role: char)
      modifies this`role, this`mode
      ensures Direction() == Set(old(Direction()), AsRole(role))
    {
      this.role := role;
      if !reverse {
        if bidirectional {
          mode := BOTH;
        } else if role == 'c' {
          mode := SENDER;
        } else if role == 's' {
          mode := RECEIVER;
        }
      } else {
        if role == 'c' {
          mode := RECEIVER;
        } else if role == 's' {
          mode := SENDER;
        }
      }
    }

    /** What iperf_reset_test does to these fields: the limits, the pacing timer, the flow label, the
        wish for server output and the repeating payload stay as they are. */
    method Reset()
      modifies this
      ensures AsReset()
      ensures byteLimit == old(byteLimit) && blockLimit == old(blockLimit) && pacingTimer == old(pacingTimer)
      ensures flowlabel == old(flowlabel) && getServerOutput == old(getServerOutput)
      ensures repeatingPayload == old(repeatingPayload)
    {
      ResetRole();
      ResetTimes();
      ResetSettings();
    }

    method ResetRole()
      modifies this`role, this`mode, this`protocol, this`reverse, this`bidirectional, this`noDelay
      ensures role == 's' && mode == RECEIVER && protocol == Ptcp && !reverse && !bidirectional && !noDelay
    {
      role := 's';
      mode := RECEIVER;
      protocol := Ptcp;
      reverse := false;
      bidirectional := false;
      noDelay := false;
    }

    method ResetTimes()
      modifies this`omit, this`duration, this`numStreams, this`udpCounters64
      ensures omit == 0 && duration == 10 && numStreams == 1 && !udpCounters64
    {
      omit := 0;
      duration := 10;
      numStreams := 1;
      udpCounters64 := false;
    }

    method ResetSettings()
      modifies this`socketBufsize, this`blksize, this`rate, this`fqrate, this`burst, this`mss, this`tos
      ensures socketBufsize == 0 && blksize == DEFAULT_TCP_BLKSIZE && rate == 0 && fqrate == 0
      ensures burst == 0 && mss == 0 && tos == 0
    {
      socketBufsize := 0;
      blksize := DEFAULT_TCP_BLKSIZE;
      rate := 0;
      fqrate := 0;
      burst := 0;
      mss := 0;
      tos := 0;
    }

    ghost predicate AsReset()
      reads this
    {
      && role == 's' && mode == RECEIVER && protocol == Ptcp && omit == 0 && duration == 10
      && !reverse && !bidirectional && !noDelay && numStreams == 1
      && socketBufsize == 0 && blksize == DEFAULT_TCP_BLKSIZE
      && rate == 0 && fqrate == 0 && burst == 0 && mss == 0 && tos == 0 && !udpCounters64
    }

    /** get_parameters on the server: a field keeps its value when its member is missing, except the
        limits, which become zero. A true or false member counts as a flag that is set. */
    method GetParameters(j: Value)
      requires role == 's'
      modifies this
      ensures role == 's'
      ensures protocol == (if IsFlag(j, Udp) then Pudp else if IsFlag(j, Tcp) then Ptcp else old(protocol))
      ensures omit == IntAt(j, Omit, old(omit)) && duration == IntAt(j, Duration, old(duration))
      ensures byteLimit == LongAt(j, Num, 0) && blockLimit == LongAt(j, Blockcount, 0)
      ensures mss == IntAt(j, Mss, old(mss)) && noDelay == (IsFlag(j, Nodelay) || old(noDelay))
      ensures numStreams == IntAt(j, Parallel, old(numStreams))
      ensures reverse == (IsFlag(j, Reverse) || old(reverse))
      ensures bidirectional == (IsFlag(j, Bidirectional) || old(bidirectional))
      ensures mode == (if IsFlag(j, Bidirectional) then BOTH else if IsFlag(j, Reverse) then SENDER else old(mode))
      ensures socketBufsize == IntAt(j, Window, old(socketBufsize)) && blksize == IntAt(j, Len, old(blksize))
      ensures rate == LongAt(j, Bandwidth, old(rate)) && fqrate == LongAt(j, Fqrate, old(fqrate))
      ensures pacingTimer == IntAt(j, PacingTimer, old(pacingTimer)) && burst == IntAt(j, Burst, old(burst))
      ensures tos == IntAt(j, Tos, old(tos)) && flowlabel == IntAt(j, Flowlabel, old(flowlabel))
      ensures getServerOutput == (NumberAt(j, GetServerOutput).Some? || old(getServerOutput))
      ensures udpCounters64 == (NumberAt(j, UdpCounters64bit).Some? || old(udpCounters64))
      ensures repeatingPayload == (NumberAt(j, RepeatingPayload).Some? || old(repeatingPayload))
    {
      hide IntAt, LongAt, IsFlag, NumberAt;
      GetProtocolAndLimits(j);
      GetModes(j);
      GetSettings(j);
      GetOptions(j);
    }

    method GetOptions(j: Value)
      modifies this`getServerOutput, this`udpCounters64, this`repeatingPayload
      ensures getServerOutput == (NumberAt(j, GetServerOutput).Some? || old(getServerOutput))
      ensures udpCounters64 == (NumberAt(j, UdpCounters64bit).Some? || old(udpCounters64))
      ensures repeatingPayload == (NumberAt(j, RepeatingPayload).Some? || old(repeatingPayload))
    {
      hide NumberAt;
      if NumberAt(j, GetServerOutput).Some? {
        getServerOutput := true;
      }
      if NumberAt(j, UdpCounters64bit).Some? {
        udpCounters64 := true;
      }
      if NumberAt(j, RepeatingPayload).Some? {
        repeatingPayload := true;
      }
    }

    method GetProtocolAndLimits(j: Value)
      modifies this`protocol, this`omit, this`duration, this`byteLimit, this`blockLimit
      ensures protocol == (if IsFlag(j, Udp) then Pudp else if IsFlag(j, Tcp) then Ptcp else old(protocol))
      ensures omit == IntAt(j, Omit, old(omit)) && duration == IntAt(j, Duration, old(duration))
      ensures byteLimit == LongAt(j, Num, 0) && blockLimit == LongAt(j, Blockcount, 0)
    {
      hide IntAt, LongAt, IsFlag;
      if IsFlag(j, Tcp) {
        protocol := Ptcp;
      }
      if IsFlag(j, Udp) {
        protocol := Pudp;
      }
      omit := IntAt(j, Omit, omit);
      duration := IntAt(j, Duration, duration);
      byteLimit := 0;
      byteLimit := LongAt(j, Num, byteLimit);
      blockLimit := 0;
      blockLimit := LongAt(j, Blockcount, blockLimit);
    }

    method GetModes(j: Value)
      requires role == 's'
      modifies this`mss, this`noDelay, this`numStreams, this`reverse, this`bidirectional, this`mode
      ensures mss == IntAt(j, Mss, old(mss)) && noDelay == (IsFlag(j, Nodelay) || old(noDelay))
      ensures numStreams == IntAt(j, Parallel, old(numStreams))
      ensures reverse == (IsFlag(j, Reverse) || old(reverse))
      ensures bidirectional == (IsFlag(j, Bidirectional) || old(bidirectional))
      ensures mode == (if IsFlag(j, Bidirectional) then BOTH else if IsFlag(j, Reverse) then SENDER else old(mode))
    {
      hide IntAt, IsFlag;
      mss := IntAt(j, Mss, mss);
      if IsFlag(j, Nodelay) {
        noDelay := true;
      }
      numStreams := IntAt(j, Parallel, numStreams);
      if IsFlag(j, Reverse) {
        SetReverse(true);
      }
      if IsFlag(j, Bidirectional) {
        SetBidirectional(true);
      }
    }

    method GetSettings(j: Value)
      modifies this`socketBufsize, this`blksize, this`rate, this`fqrate
      modifies this`pacingTimer, this`burst, this`tos, this`flowlabel
      ensures socketBufsize == IntAt(j, Window, old(socketBufsize)) && blksize == IntAt(j, Len, old(blksize))
      ensures rate == LongAt(j, Bandwidth, old(rate)) && fqrate == LongAt(j, Fqrate, old(fqrate))
      ensures pacingTimer == IntAt(j, PacingTimer, old(pacingTimer)) && burst == IntAt(j, Burst, old(burst))
      ensures tos == IntAt(j, Tos, old(tos)) && flowlabel == IntAt(j, Flowlabel, old(flowlabel))
    {
      hide IntAt, LongAt;
      socketBufsize := IntAt(j, Window, socketBufsize);
      blksize := IntAt(j, Len, blksize);
      rate := LongAt(j, Bandwidth, rate);
      fqrate := LongAt(j, Fqrate, fqrate);
      pacingTimer := IntAt(j, PacingTimer, pacingTimer);
      burst := IntAt(j, Burst, burst);
      tos := IntAt(j, Tos, tos);
      flowlabel := IntAt(j, Flowlabel, flowlabel);
    }
  }

  predicate Int32(n: int) {
    -0x8000_0000 <= n < 0x8000_0000
  }

  function Flag(on: bool): Option<Value> {
    if on then Some(Bool(true)) else None
  }

  function Count(n: int): Option<Value> {
    Some(Number(n as real))
  }

  function Nonzero(n: int): Option<Value> {
    if n != 0 then Count(n) else None
  }

  function NumberAt(j: Value, key: Key): Option<real> {
    Results.NumberItem(j, Name(key))
  }

  predicate IsFlag(j: Value, key: Key) {
    var v := Results.Item(j, Name(key));
    v.Some? && v.value.Bool?
  }

  /** A flag counts as set whichever of true and false its member is. */
  lemma FalseSetsFlag(key: Key, on: bool)
    ensures IsFlag(Object([Member(Name(key), Bool(on))]), key)
  {
    assert [Member(Name(key), Bool(on))] == [Member(Name(key), Bool(on))] + [];
    FirstFound(Name(key), Bool(on), []);
  }

  /** A number member as an int field, and as a 64-bit one. */
  function IntAt(j: Value, key: Key, otherwise: int): int {
    match NumberAt(j, key)
    case None => otherwise
    case Some(d) => Results.ToInt32(JsonText.ToInt64(d))
  }

  function LongAt(j: Value, key: Key, otherwise: int): int {
    match NumberAt(j, key)
    case None => otherwise
    case Some(d) => JsonText.ToInt64(d)
  }

  // ---------- what the server reads of what the client sends ----------

  function Index(k: Key): nat {
    match k
    case Tcp => 0
    case Udp => 1
    case Omit => 2
    case Duration => 3
    case Num => 4
    case Blockcount => 5
    case Mss => 6
    case Nodelay => 7
    case Parallel => 8
    case Reverse => 9
    case Bidirectional => 10
    case Window => 11
    case Len => 12
    case Bandwidth => 13
    case Fqrate => 14
    case PacingTimer => 15
    case Burst => 16
    case Tos => 17
    case Flowlabel => 18
    case GetServerOutput => 19
    case UdpCounters64bit => 20
    case RepeatingPayload => 21
  }

  lemma FieldsInOrder(t: Test, n: nat)
    requires n < |t.Fields()|
    ensures Index(t.Fields()[n].key) == n
  {
  }

  lemma Sent(t: Test, n: nat)
    requires n < |t.Fields()|
    ensures Results.Item(t.SendParameters(), Name(t.Fields()[n].key)) == t.Fields()[n].value
  {
    hide Test.Fields, Index, Results.Item, Name;
    var fs := t.Fields();
    forall k | 0 <= k < |fs| && k != n ensures fs[k].key != fs[n].key {
      FieldsInOrder(t, k);
      FieldsInOrder(t, n);
    }
    FieldFound(fs, n);
  }

  lemma IntRead(j: Value, key: Key, n: int, otherwise: int)
    requires Int32(n)
    ensures Results.Item(j, Name(key)) == Count(n) ==> IntAt(j, key, otherwise) == n
    ensures Results.Item(j, Name(key)) == Nonzero(n) ==> IntAt(j, key, otherwise) == if n == 0 then otherwise else n
  {
    hide Name, Results.Item;
    Results.IntReadsBack(n);
  }

  lemma LongRead(j: Value, key: Key, n: int, otherwise: int)
    requires Results.Exact(n)
    ensures Results.Item(j, Name(key)) == Count(n) ==> LongAt(j, key, otherwise) == n
    ensures Results.Item(j, Name(key)) == Nonzero(n) ==> LongAt(j, key, otherwise) == if n == 0 then otherwise else n
  {
    hide Name, Results.Item;
    Results.IntegerReadsBack(n);
  }

  /** What the flags and options of the client's object say. */
  lemma FlagsRead(t: Test)
    ensures var j := t.SendParameters();
      && IsFlag(j, Tcp) == (t.protocol == Ptcp) && IsFlag(j, Udp) == (t.protocol == Pudp)
      && IsFlag(j, Nodelay) == t.noDelay
      && IsFlag(j, Reverse) == t.reverse && IsFlag(j, Bidirectional) == t.bidirectional
      && NumberAt(j, GetServerOutput).Some? == t.getServerOutput
      && NumberAt(j, UdpCounters64bit).Some? == t.udpCounters64
      && NumberAt(j, RepeatingPayload).Some? == t.repeatingPayload
  {
    hide Test.SendParameters, Name, Results.Item;
    Sent(t, 0);
    Sent(t, 1);
    Sent(t, 7);
    Sent(t, 9);
    Sent(t, 10);
    Sent(t, 19);
    Sent(t, 20);
    Sent(t, 21);
  }

  /** What it says of the counts, for a server whose fields are zero where the client may be silent. */
  lemma CountsRead(t: Test, blksize: int, pacingTimer: int, flowlabel: int)
    requires t.InRange()
    ensures var j := t.SendParameters();
      && IntAt(j, Omit, 0) == t.omit && IntAt(j, Duration, 10) == t.duration && IntAt(j, Parallel, 1) == t.numStreams
      && LongAt(j, Num, 0) == t.byteLimit && LongAt(j, Blockcount, 0) == t.blockLimit
      && IntAt(j, Mss, 0) == t.mss && IntAt(j, Window, 0) == t.socketBufsize
      && LongAt(j, Bandwidth, 0) == t.rate && LongAt(j, Fqrate, 0) == t.fqrate
      && IntAt(j, Burst, 0) == t.burst && IntAt(j, Tos, 0) == t.tos
      && IntAt(j, Len, blksize) == (if t.blksize == 0 then blksize else t.blksize)
      && IntAt(j, PacingTimer, pacingTimer) == (if t.pacingTimer == 0 then pacingTimer else t.pacingTimer)
      && IntAt(j, Flowlabel, flowlabel) == (if t.flowlabel == 0 then flowlabel else t.flowlabel)
  {
    var j := t.SendParameters();
    CountsSent(t);
    IntRead(j, Omit, t.omit, 0);
    IntRead(j, Duration, t.duration, 10);
    IntRead(j, Parallel, t.numStreams, 1);
    LongRead(j, Num, t.byteLimit, 0);
    LongRead(j, Blockcount, t.blockLimit, 0);
    IntRead(j, Mss, t.mss, 0);
    IntRead(j, Window, t.socketBufsize, 0);
    LongRead(j, Bandwidth, t.rate, 0);
    LongRead(j, Fqrate, t.fqrate, 0);
    IntRead(j, Burst, t.burst, 0);
    IntRead(j, Tos, t.tos, 0);
    IntRead(j, Len, t.blksize, blksize);
    IntRead(j, PacingTimer, t.pacingTimer, pacingTimer);
    IntRead(j, Flowlabel, t.flowlabel, flowlabel);
    hide Test.SendParameters, Name, Results.Item, IntAt, LongAt, Count, Nonzero;
  }

  lemma CountsSent(t: Test)
    ensures var j := t.SendParameters();
      && Results.Item(j, Name(Omit)) == Count(t.omit) && Results.Item(j, Name(Duration)) == Count(t.duration)
      && Results.Item(j, Name(Parallel)) == Count(t.numStreams)
      && Results.Item(j, Name(Num)) == Count(t.byteLimit) && Results.Item(j, Name(Blockcount)) == Count(t.blockLimit)
      && Results.Item(j, Name(Mss)) == Nonzero(t.mss) && Results.Item(j, Name(Window)) == Nonzero(t.socketBufsize)
      && Results.Item(j, Name(Bandwidth)) == Nonzero(t.rate) && Results.Item(j, Name(Fqrate)) == Nonzero(t.fqrate)
      && Results.Item(j, Name(Burst)) == Nonzero(t.burst) && Results.Item(j, Name(Tos)) == Nonzero(t.tos)
      && Results.Item(j, Name(Len)) == Nonzero(t.blksize)
      && Results.Item(j, Name(PacingTimer)) == Nonzero(t.pacingTimer)
      && Results.Item(j, Name(Flowlabel)) == Nonzero(t.flowlabel)
  {
    hide Test.SendParameters, Name, Results.Item, Count, Nonzero, Flag;
    Sent(t, 2);
    Sent(t, 3);
    Sent(t, 4);
    Sent(t, 5);
    Sent(t, 6);
    Sent(t, 8);
    Sent(t, 11);
    Sent(t, 12);
    Sent(t, 13);
    Sent(t, 14);
    Sent(t, 15);
    Sent(t, 16);
    Sent(t, 17);
    Sent(t, 18);
  }

  function Complement(mode: int): int {
    if mode == SENDER then RECEIVER else if mode == RECEIVER then SENDER else mode
  }

  /** The next test of a server in any state: it resets and reads the client's parameters. It then
      agrees with the client on all it has to, and takes the complementary mode, whatever it did
      before; the pacing timer, the flow label, the wish for server output and the repeating payload
      of earlier tests stay where the client says nothing of them. */
  method NextTest(server: Test, client: Test)
    requires server != client && client.InRange() && client.role == 'c' && !(client.reverse && client.bidirectional)
    requires client.mode == if client.bidirectional then BOTH else if client.reverse then RECEIVER else SENDER
    modifies server
    ensures server.protocol == client.protocol && server.omit == client.omit && server.duration == client.duration
    ensures server.byteLimit == client.byteLimit && server.blockLimit == client.blockLimit && server.mss == client.mss
    ensures server.noDelay == client.noDelay && server.numStreams == client.numStreams
    ensures server.reverse == client.reverse && server.bidirectional == client.bidirectional
    ensures server.socketBufsize == client.socketBufsize
    ensures server.blksize == if client.blksize == 0 then DEFAULT_TCP_BLKSIZE else client.blksize
    ensures server.rate == client.rate && server.fqrate == client.fqrate
    ensures server.burst == client.burst && server.tos == client.tos
    ensures server.udpCounters64 == client.udpCounters64
    ensures server.mode == Complement(client.mode)
    ensures server.pacingTimer == if client.pacingTimer == 0 then old(server.pacingTimer) else client.pacingTimer
    ensures server.flowlabel == if client.flowlabel == 0 then old(server.flowlabel) else client.flowlabel
    ensures server.getServerOutput == (client.getServerOutput || old(server.getServerOutput))
    ensures server.repeatingPayload == (client.repeatingPayload || old(server.repeatingPayload))
  {
    hide IntAt, LongAt, IsFlag, NumberAt, Test.SendParameters;
    server.Reset();
    var j := client.SendParameters();
    FlagsRead(client);
    CountsRead(client, server.blksize, server.pacingTimer, server.flowlabel);
    server.GetParameters(j);
  }
}
