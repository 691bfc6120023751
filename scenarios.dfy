/** Client programs that drive a fresh session through the library's API
    and state, from the method contracts alone, what a log host would see. */
module Scenarios {
  import opened Configuration
  import opened Format
  import opened DebugNet

  /** debugNetInit on a live session answers 1 again, keeps the first
      socket and sends nothing more. */
  method InitTwice(first: int, second: int) returns (r1: int, r2: int, fd: int, n1: nat, n2: nat)
    ensures r1 == 1 && r2 == 1
    ensures fd == first
    ensures n1 == 3 && n2 == n1
  {
    var s := new Session();
    r1 := s.Init("127.0.0.1", 9999, INFO, first);
    n1 := |s.sent|;
    r2 := s.Init("127.0.0.1", 9999, INFO, second);
    n2 := |s.sent|;
    fd := s.conf.socketFD;
  }

  /** With the threshold at ERROR, a DEBUG message sends nothing, an ERROR
      message sends one datagram, and a NONE message sends nothing. */
  method GateAtError(socket: int, text: string) returns (debugSends: nat, errorSends: nat, noneSends: nat)
    ensures debugSends == 0 && errorSends == 1 && noneSends == 0
  {
    var s := new Session();
    var _ := s.Init("127.0.0.1", 9999, ERROR, socket);
    var before := |s.sent|;
    s.Printf(DEBUG, text);
    debugSends := |s.sent| - before;
    before := |s.sent|;
    s.Printf(ERROR, text);
    errorSends := |s.sent| - before;
    before := |s.sent|;
    s.Printf(NONE, text);
    noneSends := |s.sent| - before;
  }

  lemma SuffixAfter<X>(p: seq<X>, q: seq<X>)
    ensures (p + q)[|p|..] == q
  {
  }

  /** Three INFO messages on a session whose threshold admits INFO. */
  method LogThree(s: Session, a: string, b: string, c: string)
    requires s.conf != null && INFO <= s.conf.logLevel
    modifies s`sent
    ensures s.sent == old(s.sent) + [Datagram(s.conf.socketFD, Payload(INFO, a)),
                                     Datagram(s.conf.socketFD, Payload(INFO, b)),
                                     Datagram(s.conf.socketFD, Payload(INFO, c))]
  {
    s.Printf(INFO, a);
    s.Printf(INFO, b);
    s.Printf(INFO, c);
  }

  /** Three messages at an admitted level reach the socket in call order. */
  method InOrder(socket: int, a: string, b: string, c: string) returns (tail: seq<Datagram>)
    ensures tail == [Datagram(socket, Payload(INFO, a)),
                     Datagram(socket, Payload(INFO, b)),
                     Datagram(socket, Payload(INFO, c))]
  {
    var s := new Session();
    var _ := s.Init("127.0.0.1", 9999, INFO, socket);
    var booted := s.sent;
    LogThree(s, a, b, c);
    SuffixAfter(booted, [Datagram(socket, Payload(INFO, a)),
                         Datagram(socket, Payload(INFO, b)),
                         Datagram(socket, Payload(INFO, c))]);
    tail := s.sent[|booted|..];
  }

  /** init at INFO, then one INFO message "ready": the three boot lines,
      then exactly the tagged message. */
  method ReadyLine(socket: int) returns (log: seq<Datagram>)
    ensures |log| == 4
    ensures log[..3] == [Datagram(socket, Payload(INFO, BootBanner)),
                         Datagram(socket, Payload(INFO, BootCopyright)),
                         Datagram(socket, Payload(INFO, BootReady))]
    ensures log[3] == Datagram(socket, InfoTag + "ready")
  {
    PayloadVerbatim(INFO, "ready");
    var s := new Session();
    var _ := s.Init("127.0.0.1", 9999, INFO, socket);
    s.Printf(INFO, "ready");
    log := s.sent;
  }

  /** A caller's live record, once adopted, comes through debugNetFinish
      untouched. */
  method AdoptedSurvivesFinish(socket: int, level: int) returns (initialized: int, fd: int)
    ensures initialized == 1 && fd == socket
  {
    var c := new Config(1, socket, level);
    var s := new Session();
    var _ := s.SetConf(c);
    s.Finish();
    initialized, fd := c.initialized, c.socketFD;
  }

  /** An adopted record that is not yet live is bootstrapped by
      debugNetInit through the shared reference, and the caller sees the
      new socket in its own record; debugNetFinish still leaves it alone. */
  method AdoptedThenInit(socket: int) returns (adopted: int, initialized: int, fd: int, level: int)
    ensures adopted == 0
    ensures initialized == 1 && fd == socket && level == DEBUG
  {
    var c := new Config(0, -1, NONE);
    var s := new Session();
    adopted := s.SetConf(c);
    var _ := s.Init("127.0.0.1", 9999, DEBUG, socket);
    s.Finish();
    initialized, fd, level := c.initialized, c.socketFD, c.logLevel;
  }

  /** An owned session shut down with debugNetFinish keeps its record and its
      threshold, and a later debugNetInit bootstraps it again on the new
      socket. */
  method FinishThenReinit(first: int, second: int)
    returns (sameRecord: bool, flagAfterFinish: int, fdAfterFinish: int, levelAfterFinish: int,
             r: int, fd: int)
    ensures sameRecord
    ensures flagAfterFinish == 0 && fdAfterFinish == -1 && levelAfterFinish == ERROR
    ensures r == 1 && fd == second
  {
    var s := new Session();
    var _ := s.Init("127.0.0.1", 9999, DEBUG, first);
    var before := s.GetConf();
    s.SetLogLevel(ERROR);
    s.Finish();
    var after := s.GetConf();
    sameRecord := before == after;
    flagAfterFinish, fdAfterFinish, levelAfterFinish := after.initialized, after.socketFD, after.logLevel;
    r := s.Init("127.0.0.1", 9999, INFO, second);
    fd := s.conf.socketFD;
  }

  /** Adopting a live record reports it in three INFO lines, the second of
      which carries the three fields in decimal. */
  method AdoptLive(socket: int) returns (r: int, log: seq<Datagram>)
    ensures r == 1
    ensures |log| == 3
    ensures log[1] == Datagram(socket, Payload(INFO, AdoptReport(1, socket, INFO)))
  {
    var c := new Config(1, socket, INFO);
    var s := new Session();
    r := s.InitWithConf(c);
    log := s.sent;
  }
}
