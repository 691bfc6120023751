/** The session lifecycle and the message pipeline. The library's two
    globals, the current-configuration pointer and the external-ownership
    flag, are the fields of one Session object; the datagrams handed to the
    send primitive are recorded, in order, in its `sent` field. */
module DebugNet {
  import opened Configuration
  import opened Format

  /** One call of the send primitive: the socket it was given and the bytes. */
  datatype Datagram = Datagram(socket: int, payload: string)

  // The lines debugNetInit sends once the socket is set up.
  const BootBanner: string := "debugnet initialized\n"
  const BootCopyright: string := "Copyright (C) 2010,2022 Antonio Jose Ramos Marquez aka bigboss @psxdev\n"
  const BootReady: string := "ready to have a lot of fun...\n"

  // The first line debugNetInitWithConf sends for an adopted live record.
  const AdoptBanner: string := "debugnet already initialized using configuration from ps4link\n"

  // The labels of the three fields of that report.
  const InitLabel: string := "debugnet_initialized="
  const SocketLabel: string := " SocketFD="
  const LevelLabel: string := " logLevel="

  /** The second line debugNetInitWithConf sends: the adopted record's three
      fields in decimal, the flag first, right after its label. */
  function AdoptReport(initialized: int, socketFD: int, logLevel: int): (r: string)
    ensures NulFree(r) && 0 < |r| && r[|r| - 1] == '\n'
  {
    LabelsNulFree();
    var head := Field(InitLabel, initialized);
    var tail := ReportTail(socketFD, logLevel);
    NulFreeConcat(head, tail);
    head + tail
  }

  /** None of the report's labels holds a NUL. */
  lemma LabelsNulFree()
    ensures NulFree(InitLabel) && NulFree(SocketLabel) && NulFree(LevelLabel)
  {
  }

  /** The adopted record's flag reads back from the report, right after its
      label, and the rest of the line is the tail with the other two fields
      (see TailFields). */
  lemma AdoptReportFlag(initialized: int, socketFD: int, logLevel: int)
    ensures var r, n := AdoptReport(initialized, socketFD, logLevel), |Decimal(initialized)|;
      |InitLabel| + n <= |r| && r[|InitLabel|..|InitLabel| + n] == Decimal(initialized)
        && ParseDecimal(r[|InitLabel|..|InitLabel| + n]) == initialized
    ensures var r, n := AdoptReport(initialized, socketFD, logLevel), |Decimal(initialized)|;
      |InitLabel| + n <= |r| && r[|InitLabel| + n..] == ReportTail(socketFD, logLevel)
  {
    ValueAfterName(InitLabel, Decimal(initialized), ReportTail(socketFD, logLevel));
    DecimalRoundTrip(initialized);
  }

  /** In a line made of a name, a value and a tail, the value sits right
      after the name and the tail follows it. */
  lemma ValueAfterName(name: string, value: string, tail: string)
    ensures var r := name + value + tail;
      |name| + |value| <= |r| && r[|name|..|name| + |value|] == value
        && r[|name| + |value|..] == tail
  {
    var r := name + value + tail;
    assert r[|name|..|name| + |value|] == value;
    assert r[|name| + |value|..] == tail;
  }

  /** The socket and the threshold read back from the tail of the report,
      each right after its label. */
  lemma TailFields(socketFD: int, logLevel: int)
    ensures var t, f, l := ReportTail(socketFD, logLevel), Decimal(socketFD), Decimal(logLevel);
      var a := |SocketLabel|;
      var b := a + |f| + |LevelLabel|;
      b + |l| <= |t| && t[a..a + |f|] == f && t[b..b + |l|] == l
        && ParseDecimal(t[a..a + |f|]) == socketFD && ParseDecimal(t[b..b + |l|]) == logLevel
  {
    var f, l := Decimal(socketFD), Decimal(logLevel);
    var t := ReportTail(socketFD, logLevel);
    assert t == SocketLabel + f + LevelLabel + l + "\n";
    ValueAfterName(SocketLabel, f, LevelLabel + l + "\n");
    assert t == SocketLabel + f + (LevelLabel + l + "\n");
    ValueAfterName(SocketLabel + f + LevelLabel, l, "\n");
    DecimalRoundTrip(socketFD);
    DecimalRoundTrip(logLevel);
  }

  /** The rest of that line: the socket and the threshold, then a newline. */
  function ReportTail(socketFD: int, logLevel: int): (r: string)
    ensures NulFree(r) && 0 < |r| && r[|r| - 1] == '\n'
  {
    LabelsNulFree();
    var fd := Field(SocketLabel, socketFD);
    var level := Field(LevelLabel, logLevel);
    NulFreeConcat(fd, level);
    NulFreeConcat(fd + level, "\n");
    fd + level + "\n"
  }

  /** One labelled field of that line: its name, then the value in decimal. */
  function Field(name: string, value: int): (r: string)
    requires NulFree(name)
    ensures NulFree(r) && name <= r
  {
    NulFreeConcat(name, Decimal(value));
    name + Decimal(value)
  }

  /** The datagrams one debugNetPrintf call sends while a configuration with
      threshold `threshold` and socket `fd` is current: one for every level
      within the threshold except NONE, none otherwise. */
  function Sends(threshold: int, fd: int, level: int, text: string): (r: seq<Datagram>)
    ensures |r| <= 1
    ensures r != [] <==> level != NONE && level <= threshold
    ensures r != [] ==> r[0] == Datagram(fd, Payload(level, text))
  {
    if level > threshold || level == NONE then [] else [Datagram(fd, Payload(level, text))]
  }

  /** Raising the threshold never silences a message that was sent. */
  lemma SendsMonotone(low: int, high: int, fd: int, level: int, text: string)
    requires low <= high
    ensures |Sends(low, fd, level, text)| <= |Sends(high, fd, level, text)|
  {
  }

  /** A message is sent at most once, and each severity level that is within
      the threshold is sent once, on the current socket, behind its own tag. */
  lemma SendsSeverity(threshold: int, fd: int, level: int, text: string)
    ensures |Sends(threshold, fd, level, text)| <= 1
    ensures IsSeverity(level) && level <= threshold ==>
      |Sends(threshold, fd, level, text)| == 1
      && Sends(threshold, fd, level, text)[0].socket == fd
      && Decode(Sends(threshold, fd, level, text)[0].payload).Tagged?
      && Decode(Sends(threshold, fd, level, text)[0].payload).level == level
  {
    if IsSeverity(level) && level <= threshold {
      DecodePayload(level, text);
    }
  }

  /** NONE as a message level never sends; NONE as the threshold silences
      every severity level. A negative level is not caught by either: it
      passes any threshold of zero or more and goes out untagged. */
  lemma SendsNone(threshold: int, fd: int, level: int, text: string)
    ensures Sends(threshold, fd, NONE, text) == []
    ensures IsSeverity(level) ==> Sends(NONE, fd, level, text) == []
    ensures level < 0 && threshold >= 0 ==>
      Sends(threshold, fd, level, text) == [Datagram(fd, Wire(CString(Snprintf(text, BufferSize))))]
  {
    assert Tag(level) == [] <== level < 0;
    assert level < 0 ==> Formatted(level, text) == CString(Snprintf(text, BufferSize));
  }

  class Session {
    /** dconfig: the current configuration record, or null. */
    var conf: Config?
    /** debugnet_external_conf: set once a caller's record was adopted. */
    var external: bool
    /** Every datagram handed to the send primitive, oldest first. */
    var sent: seq<Datagram>

    /** What the library maintains: an adopted record is never null, and a
        record the library owns is either live (flag 1) or reset (flag 0,
        no socket). */
    ghost predicate Valid()
      reads this, conf
    {
      && (external ==> conf != null)
      && (!external && conf != null ==>
            conf.initialized == 1 || (conf.initialized == 0 && conf.socketFD == -1))
    }

    /** The state at program start. */
    constructor ()
      ensures conf == null && !external && sent == []
      ensures Valid()
    {
      conf := null;
      external := false;
      sent := [];
    }

    /** debugNetUDPPrintf: send the formatted text, cut to the buffer and
        read up to its first NUL, on the current socket. */
    method UdpPrintf(formatted: string)
      requires conf != null
      modifies this`sent
      ensures sent == old(sent) + [Datagram(conf.socketFD, Wire(formatted))]
    {
      var buffer := Snprintf(formatted, BufferSize);
      sent := sent + [Datagram(conf.socketFD, CString(buffer))];
    }

    /** debugNetPrintf: drop the message when a configuration exists and the
        level is above its threshold; otherwise tag it by level and send it.
        With no configuration nothing is gated, and the send then reads the
        null record, so that case is only defined for level NONE. */
    method Printf(level: int, text: string)
      requires conf != null || level == NONE
      modifies this`sent
      ensures conf == null ==> sent == old(sent)
      ensures conf != null ==> sent == old(sent) + Sends(conf.logLevel, conf.socketFD, level, text)
    {
      if conf != null && level > conf.logLevel {
        return;
      }
      var msgbuf := Snprintf(text, BufferSize);
      if level == INFO {
        UdpPrintf(InfoTag + CString(msgbuf));
      } else if level == ERROR {
        UdpPrintf(ErrorTag + CString(msgbuf));
      } else if level == DEBUG {
        UdpPrintf(DebugTag + CString(msgbuf));
      } else if level == NONE {
      } else {
        assert Tag(level) + CString(msgbuf) == CString(msgbuf);
        UdpPrintf(CString(msgbuf));
      }
    }

    /** Three debugNetPrintf calls at INFO in a row, as debugNetInit and
        debugNetInitWithConf make them. */
    method PrintfInfo3(a: string, b: string, c: string)
      requires conf != null
      modifies this`sent
      ensures sent == old(sent) + Sends(conf.logLevel, conf.socketFD, INFO, a)
                                + Sends(conf.logLevel, conf.socketFD, INFO, b)
                                + Sends(conf.logLevel, conf.socketFD, INFO, c)
    {
      Printf(INFO, a);
      Printf(INFO, b);
      Printf(INFO, c);
    }

    /** debugNetSetLogLevel: change the threshold of the current record, if
        there is one. */
    method SetLogLevel(level: int)
      modifies conf
      ensures conf != null ==>
        conf.logLevel == level
        && conf.initialized == old(conf.initialized) && conf.socketFD == old(conf.socketFD)
      ensures old(Valid()) ==> Valid()
    {
      if conf != null {
        conf.logLevel := level;
      }
    }

    /** debugNetCreateConf: install a fresh reset record at level INFO when
        there is none (answer 0); otherwise change nothing and answer 1
        exactly when the current record is initialized. */
    method CreateConf() returns (r: int)
      modifies this`conf
      ensures old(conf) == null ==>
        r == 0 && conf != null && fresh(conf)
        && conf.initialized == 0 && conf.socketFD == -1 && conf.logLevel == INFO
      ensures old(conf) != null ==>
        conf == old(conf) && r == (if conf.initialized != 0 then 1 else 0)
      ensures old(Valid()) ==> Valid()
    {
      if conf == null {
        conf := new Config(0, -1, INFO);
        return 0;
      }
      if conf.initialized != 0 {
        return 1;
      }
      return 0;
    }

    /** debugNetInit. On a live record it only answers the record's flag. Otherwise
        (creating the record if needed) it sets the threshold to `level`,
        stores `socket` (what the socket call returned), sends the three
        boot lines at INFO and marks the record initialized, answering 1
        whatever the socket and connect calls did. The server address and
        port only feed the connect call. */
    method Init(serverIp: string, port: int, level: int, socket: int) returns (r: int)
      modifies this, conf
      ensures old(conf) != null && old(conf.initialized) != 0 ==>
        r == old(conf.initialized) && conf == old(conf) && unchanged(this) && unchanged(conf)
      ensures old(conf) == null || old(conf.initialized) == 0 ==>
        r == 1 && conf != null
        && (old(conf) == null ==> fresh(conf))
        && (old(conf) != null ==> conf == old(conf))
        && conf.initialized == 1 && conf.socketFD == socket && conf.logLevel == level
        && external == old(external)
        && sent == old(sent) + Sends(level, socket, INFO, BootBanner)
                             + Sends(level, socket, INFO, BootCopyright)
                             + Sends(level, socket, INFO, BootReady)
      ensures old(Valid()) && !old(external) && old(conf) != null && old(conf.initialized) != 0 ==> r == 1
      ensures old(Valid()) ==> Valid()
    {
      var live := CreateConf();
      if live != 0 {
        return conf.initialized;
      }
      SetLogLevel(level);
      conf.socketFD := socket;
      PrintfInfo3(BootBanner, BootCopyright, BootReady);
      conf.initialized := 1;
      return conf.initialized;
    }

    /** debugNetGetConf: the current record, or null. */
    method GetConf() returns (c: Config?)
      ensures c == conf
    {
      if conf != null {
        return conf;
      }
      return null;
    }

    /** debugNetSetConf: adopt the caller's record by reference and remember
        that it is the caller's; answer its flag. A null record changes
        nothing and answers 0. */
    method SetConf(c: Config?) returns (r: int)
      modifies this`conf, this`external
      ensures c == null ==> r == 0 && conf == old(conf) && external == old(external)
      ensures c != null ==> conf == c && external && r == c.initialized
      ensures old(Valid()) ==> Valid()
    {
      if c != null {
        conf := c;
        external := true;
        return conf.initialized;
      }
      return 0;
    }

    /** debugNetInitWithConf: adopt the caller's record; if it is live,
        report it in three INFO lines. The answer is the adopted record's
        flag (0 for a null record). No socket is ever opened here. */
    method InitWithConf(c: Config?) returns (r: int)
      modifies this
      ensures c == null ==> r == 0 && unchanged(this)
      ensures c != null ==> conf == c && external && r == c.initialized
      ensures c != null && c.initialized == 0 ==> sent == old(sent)
      ensures c != null && c.initialized != 0 ==>
        sent == old(sent) + Sends(c.logLevel, c.socketFD, INFO, AdoptBanner)
                          + Sends(c.logLevel, c.socketFD, INFO, AdoptReport(c.initialized, c.socketFD, c.logLevel))
                          + Sends(c.logLevel, c.socketFD, INFO, BootReady)
      ensures old(Valid()) ==> Valid()
    {
      var ret := SetConf(c);
      if ret != 0 {
        PrintfInfo3(AdoptBanner, AdoptReport(conf.initialized, conf.socketFD, conf.logLevel), BootReady);
        return conf.initialized;
      } else {
        return 0;
      }
    }

    /** debugNetFinish: for a record the library owns, reset a live record
        to flag 0 and no socket, keeping its threshold and the record
        itself. An adopted record is left alone. The owned case reads the
        record, so it needs one. */
    method Finish()
      requires external || conf != null
      modifies if external then {} else {conf}
      ensures external && conf != null ==> unchanged(conf)
      ensures !external ==>
        conf.logLevel == old(conf.logLevel)
        && (old(conf.initialized) != 0 ==> conf.initialized == 0 && conf.socketFD == -1)
        && (old(conf.initialized) == 0 ==> unchanged(conf))
      ensures old(Valid()) ==> Valid()
    {
      if !external {
        if conf.initialized != 0 {
          conf.initialized := 0;
          conf.socketFD := -1;
        }
      }
    }
  }
}
