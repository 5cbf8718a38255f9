/** command/admintest.go: the owner's test command. Its sub-commands answer a ping,
    arm a client panic, panic inside the command, and probe the line-length limit by
    writing messages of exact byte sizes straight to the connection. */
module AdminTestCmd {
  import opened Common
  import opened IrcSession
  import opened Commands

  const TestUsage := "usage: test <subcommand>\n  ping, msgsize, clientpanic, commandpanic"
  const MsgsizeIntro := "will send a few long messages and print byte length"
  const MsgsizeNotice := "hopefully the 512 one came through\nwill now send a few of 513 bytes and higher"
  const MsgsizeFailed := "failed to make message. should not happen"

  /** The panic value of make with a negative length. */
  const MakeSliceNegative := "runtime error: makeslice: len out of range"

  /** The probe sizes before the notice, and after it. */
  const SizesUpTo512: seq<nat> := [200, 300, 400, 500, 512]
  const SizesPast512: seq<nat> := [513, 520, 530]

  /** overhead: the byte length of an empty message from this client to where. */
  function Overhead(self: Session, where: string): nat {
    ByteLen(Privmsg(self.nick, self.user, self.host, where, ""))
  }

  /** The report at the start of every probe. */
  function ProbeInfo(size: nat, overhead: nat): string
    requires overhead <= size
  {
    "total:" + Decimal(size) + " text:" + Decimal(size - overhead) + " overhead:" + Decimal(overhead) + " "
  }

  /** Whether a probe of this size has room for its report. */
  predicate Fits(size: nat, overhead: nat) {
    overhead <= size && overhead + |ProbeInfo(size, overhead)| <= size
  }

  /** The text of a probe: the report, then dots up to size - overhead characters. */
  function ProbeText(size: nat, overhead: nat): string
    requires Fits(size, overhead)
  {
    ProbeInfo(size, overhead) + seq(size - overhead - |ProbeInfo(size, overhead)|, _ => '.')
  }

  /** The panic value of slicing past the end: [low:len]. */
  function SliceBoundsText(low: nat, len: nat): string {
    "runtime error: slice bounds out of range [" + Decimal(low) + ":" + Decimal(len) + "]"
  }

  /** What sendOfNBytes(size) does. */
  function Probe(self: Session, where: string, size: nat): Handled
  {
    var overhead := Overhead(self, where);
    if size < overhead then Handled([], Some(MakeSliceNegative))
    else if overhead + |ProbeInfo(size, overhead)| > size then
      Handled([], Some(SliceBoundsText(|ProbeInfo(size, overhead)|, size - overhead)))
    else
      var msg := Privmsg(self.nick, self.user, self.host, where, ProbeText(size, overhead));
      if ByteLen(msg) == size then Handled([WriteRaw(msg)], None)
      else Replied(MsgsizeFailed)
  }

  /** sendOfNBytes: fills size - overhead bytes with dots, puts the report over the
      front, frames the text and writes it raw when its length is size. */
  method SendOfNBytes(self: Session, where: string, size: nat) returns (h: Handled)
    ensures h == Probe(self, where, size)
  {
    var overhead := ByteLen(Privmsg(self.nick, self.user, self.host, where, ""));
    if size < overhead {
      return Handled([], Some(MakeSliceNegative));
    }
    var padding := new char[size - overhead];
    for i := 0 to padding.Length
      invariant forall k :: 0 <= k < i ==> padding[k] == '.'
    {
      padding[i] := '.';
    }
    var info := ProbeInfo(size, overhead);
    if |info| > padding.Length {
      return Handled([], Some(SliceBoundsText(|info|, padding.Length)));
    }
    var text := info + padding[|info|..];
    assert padding[|info|..] == seq(size - overhead - |info|, _ => '.');
    var msg := Privmsg(self.nick, self.user, self.host, where, text);
    if ByteLen(msg) == size {
      return Handled([WriteRaw(msg)], None);
    }
    return Replied(MsgsizeFailed);
  }

  /** The report and the dots are plain ASCII. */
  lemma ProbeTextAscii(size: nat, overhead: nat)
    requires Fits(size, overhead)
    ensures forall c <- ProbeText(size, overhead) :: c as int < 0x80
  {
    var t := ProbeText(size, overhead);
    forall c <- t ensures c as int < 0x80 {
      assert c in ProbeInfo(size, overhead) || c == '.';
      if c in ProbeInfo(size, overhead) {
        assert c in "total:" || c in Decimal(size) || c in " text:" || c in Decimal(size - overhead)
          || c in " overhead:" || c in Decimal(overhead) || c in " ";
      }
    }
  }

  /** A probe with room for its report writes exactly one raw frame of exactly size
      bytes, whose text is the report followed by dots; "failed to make message" can
      never be sent. */
  lemma {:induction false} ProbeIsExact(self: Session, where: string, size: nat)
    requires Fits(size, Overhead(self, where))
    ensures var text := ProbeText(size, Overhead(self, where));
      && HasPrefix(text, ProbeInfo(size, Overhead(self, where)))
      && (forall c <- text[|ProbeInfo(size, Overhead(self, where))|..] :: c == '.')
      && Probe(self, where, size) == Handled([WriteRaw(Privmsg(self.nick, self.user, self.host, where, text))], None)
      && ByteLen(Privmsg(self.nick, self.user, self.host, where, text)) == size
  {
    var overhead := Overhead(self, where);
    var text := ProbeText(size, overhead);
    PrivmsgLength(self.nick, self.user, self.host, where, "");
    PrivmsgLength(self.nick, self.user, self.host, where, text);
    ProbeTextAscii(size, overhead);
    ByteLenAscii(text);
    assert ByteLen("") == 0;
    assert text[..|ProbeInfo(size, overhead)|] == ProbeInfo(size, overhead);
  }

  /** A probe with no room for its report panics and writes nothing. */
  lemma ProbeTooSmallPanics(self: Session, where: string, size: nat)
    requires !Fits(size, Overhead(self, where))
    ensures Probe(self, where, size).panicked.Some? && Probe(self, where, size).effects == []
  {
  }

  /** Runs the second handler unless the first one panicked. */
  function Then(first: Handled, second: Handled): (h: Handled)
    ensures first.panicked.Some? ==> h == first
  {
    if first.panicked.Some? then first
    else Handled(first.effects + second.effects, second.panicked)
  }

  /** The probes of a list of sizes, in order, stopping at the first panic. */
  function Probes(self: Session, where: string, sizes: seq<nat>): Handled
  {
    if sizes == [] then Handled([], None)
    else Then(Probe(self, where, sizes[0]), Probes(self, where, sizes[1..]))
  }

  /** testMsgsize */
  function Msgsize(self: Session, where: string): Handled
  {
    Then(Replied(MsgsizeIntro),
      Then(Probes(self, where, SizesUpTo512),
        Then(Replied(MsgsizeNotice), Probes(self, where, SizesPast512))))
  }

  /** The frame a probe of the given size writes. */
  function ProbeFrame(self: Session, where: string, size: nat): string
    requires Fits(size, Overhead(self, where))
  {
    Privmsg(self.nick, self.user, self.host, where, ProbeText(size, Overhead(self, where)))
  }

  /** %d of a number below 100 takes at most two digits. */
  lemma DecimalBelowHundred(n: nat)
    requires n < 100
    ensures |Decimal(n)| <= 2
  {
    if n >= 10 {
      assert |Decimal(n / 10)| == 1;
    }
  }

  /** %d of a number below 1000 takes at most three digits. */
  lemma DecimalBelowThousand(n: nat)
    requires n < 1000
    ensures |Decimal(n)| <= 3
  {
    if n >= 10 {
      DecimalBelowHundred(n / 10);
    }
  }

  /** The report is at most 32 characters for every size the test probes. */
  lemma ProbeInfoShort(size: nat, overhead: nat)
    requires overhead <= size < 1000
    ensures |ProbeInfo(size, overhead)| <= 32
  {
    DecimalBelowThousand(size);
    DecimalBelowThousand(size - overhead);
    DecimalBelowThousand(overhead);
  }

  /** The raw frames a list of fitting probes writes, in order. */
  function Written(self: Session, where: string, sizes: seq<nat>): seq<Effect>
    requires forall size <- sizes :: Fits(size, Overhead(self, where))
  {
    seq(|sizes|, i requires 0 <= i < |sizes| => assert sizes[i] in sizes; WriteRaw(ProbeFrame(self, where, sizes[i])))
  }

  /** With a framing overhead of at most 168 bytes (the nick, user, host and target
      together at most 152 bytes), every probe fits its report: the test writes, in
      order, the introduction, raw frames of 200, 300, 400, 500 and 512 bytes, the
      notice, then raw frames of 513, 520 and 530 bytes, and does not panic. */
  lemma MsgsizeSequence(self: Session, where: string)
    requires Overhead(self, where) <= 168
    ensures forall size <- SizesUpTo512 + SizesPast512 :: Fits(size, Overhead(self, where))
    ensures Msgsize(self, where) == Handled(
      [Reply(MsgsizeIntro)] + Written(self, where, SizesUpTo512)
      + [Reply(MsgsizeNotice)] + Written(self, where, SizesPast512), None)
  {
    var overhead := Overhead(self, where);
    forall size <- SizesUpTo512 + SizesPast512
      ensures Fits(size, overhead)
      ensures Probe(self, where, size) == Handled([WriteRaw(ProbeFrame(self, where, size))], None)
    {
      ProbeInfoShort(size, overhead);
      ProbeIsExact(self, where, size);
    }
    ProbesAllWritten(self, where, SizesUpTo512);
    ProbesAllWritten(self, where, SizesPast512);
  }

  /** When every probe of a list writes its frame, the probes write those frames in
      order. */
  lemma {:induction false} ProbesAllWritten(self: Session, where: string, sizes: seq<nat>)
    requires forall size <- sizes ::
      Fits(size, Overhead(self, where))
      && Probe(self, where, size) == Handled([WriteRaw(ProbeFrame(self, where, size))], None)
    ensures Probes(self, where, sizes) == Handled(Written(self, where, sizes), None)
  {
    if sizes != [] {
      assert sizes[0] in sizes;
      assert forall s <- sizes[1..] :: s in sizes;
      ProbesAllWritten(self, where, sizes[1..]);
      assert Written(self, where, sizes) == [WriteRaw(ProbeFrame(self, where, sizes[0]))] + Written(self, where, sizes[1..]);
    }
  }

  /** handleTest: args are the whole token list, the command's own name first. self is
      the client the line came from, where the reply target. */
  function HandleTest(self: Session, where: string, args: seq<string>): Handled
  {
    if |args| < 2 then Replied(TestUsage)
    else if args[1] == "ping" then Replied("pong!")
    else if args[1] == "msgsize" then Msgsize(self, where)
    else if args[1] == "clientpanic" then
      Handled([MarkPanicOnNextPing, Reply("will client panic on next ping")], None)
    else if args[1] == "commandpanic" then Handled([], Some("test panic"))
    else Replied("unknown subcommand")
  }

  /** Only clientpanic arms a panic, and only on the originating client; only
      commandpanic panics in the command; a missing sub-command gets the usage. */
  lemma HandleTestCases(self: Session, where: string, args: seq<string>)
    ensures |args| < 2 ==> HandleTest(self, where, args) == Replied(TestUsage)
    ensures MarkPanicOnNextPing in HandleTest(self, where, args).effects <==> |args| >= 2 && args[1] == "clientpanic"
    ensures |args| >= 2 && args[1] == "commandpanic" ==> HandleTest(self, where, args) == Handled([], Some("test panic"))
    ensures |args| >= 2 && args[1] != "msgsize" ==>
      (HandleTest(self, where, args).panicked.Some? <==> args[1] == "commandpanic")
  {
    if |args| >= 2 && args[1] == "msgsize" {
      MsgsizeNeverArms(self, where);
    }
  }

  /** The message-size test never arms a client panic. */
  lemma MsgsizeNeverArms(self: Session, where: string)
    ensures MarkPanicOnNextPing !in Msgsize(self, where).effects
  {
    ProbesNeverArm(self, where, SizesUpTo512);
    ProbesNeverArm(self, where, SizesPast512);
  }

  lemma {:induction false} ProbesNeverArm(self: Session, where: string, sizes: seq<nat>)
    ensures MarkPanicOnNextPing !in Probes(self, where, sizes).effects
  {
    if sizes != [] {
      ProbesNeverArm(self, where, sizes[1..]);
    }
  }
}
