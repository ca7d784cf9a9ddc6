/** Mail between machines over a lossy first-in first-out link (network/post.cc,
    machine/network.cc). */
module WireFormat {
  import opened Words

  const HEADER_SIZE := 12             // both headers are three words
  const MAX_WIRE_SIZE := 64
  const MAX_PACKET_SIZE := 52
  const MAX_MAIL_SIZE := 40

  type Wire = w: seq<Byte> | |w| == 64 witness seq(64, _ => 0)

  /** A message with the fields of both headers that are not lengths. */
  datatype Mail = Mail(to: Word, from: Word, toBox: Word, fromBox: Word, data: seq<Byte>)

  predicate Fits(m: Mail) { |m.data| <= MAX_MAIL_SIZE }

  /** What `PostOffice::Send` and `Network::Send` put on the wire: the packet header, the mail
      header, the data, and whatever the rest of the buffer held. */
  function Encode(m: Mail, pad: seq<Byte>): (w: seq<Byte>)
    requires Fits(m)
    ensures |w| == 2 * HEADER_SIZE + |m.data| + |pad|
  {
    Pack([m.to, m.from, |m.data| + HEADER_SIZE]) + Pack([m.toBox, m.fromBox, |m.data|]) + m.data + pad
  }

  /** The packet as `CheckPktAvail` divides it: the header, and as many bytes as it announces. */
  function InboxLength(w: Wire): Word { Unpack(w[..HEADER_SIZE])[2] }

  /** The length that the mail header announces. */
  function MailLength(w: Wire): Word { Unpack(w[HEADER_SIZE..2 * HEADER_SIZE])[2] }

  /** Lengths that pass the assertions on arrival; a length of 0 would mean an empty buffer. */
  predicate Sound(w: Wire) { 0 < InboxLength(w) <= MAX_PACKET_SIZE && MailLength(w) <= MAX_MAIL_SIZE }

  /** What the postal worker makes of a packet; the data is as long as the mail header says, as far as
      that passes the assertion. */
  function Decode(w: Wire): (m: Mail)
    ensures Fits(m)
  {
    var packet := Unpack(w[..HEADER_SIZE]);
    var mail := Unpack(w[HEADER_SIZE..2 * HEADER_SIZE]);
    var length := if mail[2] <= MAX_MAIL_SIZE then mail[2] else 0;
    Mail(packet[0], packet[1], mail[0], mail[1], w[2 * HEADER_SIZE..2 * HEADER_SIZE + length])
  }

  /** A message comes off the wire as it went on, whatever the padding; and the packet length is
      never zero, so a full buffer is never mistaken for an empty one. */
  lemma WireRoundTrip(m: Mail, pad: seq<Byte>)
    requires Fits(m) && 2 * HEADER_SIZE + |m.data| + |pad| == MAX_WIRE_SIZE
    ensures Decode(Encode(m, pad)) == m
    ensures InboxLength(Encode(m, pad)) == |m.data| + HEADER_SIZE > 0
    ensures MailLength(Encode(m, pad)) == |m.data|
  {
    var w := Encode(m, pad);
    var packet, mail := [m.to, m.from, |m.data| + HEADER_SIZE], [m.toBox, m.fromBox, |m.data|];
    assert w[..HEADER_SIZE] == Pack(packet);
    assert w[HEADER_SIZE..2 * HEADER_SIZE] == Pack(mail);
    PackRoundTrip(packet);
    PackRoundTrip(mail);
    assert w[2 * HEADER_SIZE..2 * HEADER_SIZE + |m.data|] == m.data;
  }

  /** The layout on the wire: two headers of three words, receiver, sender and length each, then the data. */
  lemma WireLayout(m: Mail, pad: seq<Byte>)
    requires Fits(m)
    ensures var w := Encode(m, pad);
      && w[..4] == WordBytes(m.to) && w[4..8] == WordBytes(m.from) && w[8..12] == WordBytes(|m.data| + 12)
      && w[12..16] == WordBytes(m.toBox) && w[16..20] == WordBytes(m.fromBox) && w[20..24] == WordBytes(|m.data|)
      && w[24..24 + |m.data|] == m.data
  {
    var w, packet, mail := Encode(m, pad), [m.to, m.from, |m.data| + HEADER_SIZE], [m.toBox, m.fromBox, |m.data|];
    Laid(packet, [], Pack(mail) + m.data + pad, w);
    Laid(mail, Pack(packet), m.data + pad, w);
    assert w[24..24 + |m.data|] == m.data;
  }

  lemma Laid(ws: seq<Word>, before: seq<Byte>, after: seq<Byte>, w: seq<Byte>)
    requires |ws| == 3 && w == before + Pack(ws) + after
    ensures var n := |before|;
      w[n..n + 4] == WordBytes(ws[0]) && w[n + 4..n + 8] == WordBytes(ws[1]) && w[n + 8..n + 12] == WordBytes(ws[2])
  {
    var n := |before|;
    PackedWord(ws, 0);
    PackedWord(ws, 1);
    PackedWord(ws, 2);
    assert w[n..n + 4] == Pack(ws)[0..4] && w[n + 4..n + 8] == Pack(ws)[4..8] && w[n + 8..n + 12] == Pack(ws)[8..12];
  }
}

module Subsequences {
  /** `a` is obtained from `b` by leaving elements out. */
  ghost predicate Subseq<T(!new)>(a: seq<T>, b: seq<T>) {
    a == [] ||
    (b != [] &&
     (|| Subseq(a, b[..|b| - 1])
      || (a[|a| - 1] == b[|b| - 1] && Subseq(a[..|a| - 1], b[..|b| - 1]))))
  }

  lemma Skip<T(!new)>(a: seq<T>, b: seq<T>, x: T)
    requires Subseq(a, b)
    ensures Subseq(a, b + [x])
  {
    assert (b + [x])[..|b|] == b;
  }

  lemma Extend<T(!new)>(a: seq<T>, b: seq<T>, x: T)
    requires Subseq(a, b)
    ensures Subseq(a + [x], b + [x])
  {
    assert (a + [x])[..|a|] == a && (b + [x])[..|b|] == b;
  }

  lemma {:induction false} Shorten<T(!new)>(a: seq<T>, c: seq<T>, b: seq<T>)
    requires Subseq(a + c, b)
    ensures Subseq(a, b)
    decreases |b|, |c|
  {
    if c == [] {
      assert a + c == a;
    } else if a != [] {
      var b' := b[..|b| - 1];
      assert b == b' + [b[|b| - 1]];
      if Subseq(a + c, b') {
        Shorten(a, c, b');
      } else {
        assert (a + c)[..|a + c| - 1] == a + c[..|c| - 1];
        Shorten(a, c[..|c| - 1], b');
      }
      Skip(a, b', b[|b| - 1]);
    }
  }

  lemma Reassociate<T>(a: seq<T>, x: T, b: seq<T>)
    ensures (a + [x]) + b == a + ([x] + b)
  {}

  /** Every element of a subsequence comes from the whole. */
  lemma {:induction false} Members<T(!new)>(a: seq<T>, b: seq<T>, x: T)
    requires Subseq(a, b) && x in a
    ensures x in b
    decreases |b|
  {
    var b' := b[..|b| - 1];
    if Subseq(a, b') {
      Members(a, b', x);
    } else if x != a[|a| - 1] {
      Members(a[..|a| - 1], b', x);
    }
  }
}

/** One machine's post office and everyone who sends to it: the senders' handshakes with their network
    devices, the link, the worker thread and the mail boxes, each a synchronized list. */
module PostOffices {
  import opened Words
  import opened Options
  import opened Semaphores
  import opened Monitors
  import opened WireFormat
  import opened Subsequences
  import H = Handshakes
  import SL = SynchLists

  /** A request to the network device, and what its buffer held before. */
  datatype Packet = Packet(mail: Mail, junk: Wire)

  /** The bytes that the device puts on the link. */
  function OnWire(p: Packet): Wire
    requires Fits(p.mail)
  {
    Encode(p.mail, p.junk[2 * HEADER_SIZE + |p.mail.data|..])
  }

  /** What comes off the link is what went on, and its lengths pass the assertions on arrival. */
  lemma OnWireIntact(p: Packet)
    requires Fits(p.mail)
    ensures Decode(OnWire(p)) == p.mail && Sound(OnWire(p))
  {
    WireRoundTrip(p.mail, p.junk[2 * HEADER_SIZE + |p.mail.data|..]);
  }

  /** The postal worker is the only thread that waits on `messageAvailable` and the only one that
      puts mail into boxes. */
  const WORKER: Tid := 0

  /** `Putting` is inside `MailBox::Put` before the mail is on the list, `Leaving` after. */
  datatype WorkerPc = InP | Woken | Delivering(mail: Mail) | Putting(mail: Mail) | Leaving(box: int)

  type Box = s: SL.State<Mail> | |s.mon.conds| == 1 witness SL.Start()
  type Boxes = map<int, Box>
  type Sender = H.State<Packet>
  type Senders = map<int, Sender>

  datatype State = State(
    here: Word,                       // this machine's address
    numBoxes: nat,
    senders: Senders,                 // the sending side of every machine
    sent: seq<Mail>,                  // everything sent to this machine, lost or not
    socket: seq<Wire>,                // on the link
    inbox: Option<Wire>,              // inHdr and inbox: None when inHdr.length is 0
    messageAvailable: Sem,
    worker: WorkerPc,
    delivered: seq<Mail>,             // everything put into mail boxes
    boxes: Boxes,
    failed: bool)                     // an assertion has failed, here or in a sender's device

  function Start(here: Word, numBoxes: nat): State {
    State(here, numBoxes, map[], [], [], None, NewSem(0), InP, [], map[], false)
  }

  function SenderAt(senders: Senders, peer: int): Sender { if peer in senders then senders[peer] else H.Start() }
  function BoxAt(boxes: Boxes, b: int): Box { if b in boxes then boxes[b] else SL.Start() }

  /** `Sending` is a step of the machine with the given address inside `PostOffice::Send`. */
  datatype Op =
    | Sending(peer: Word, op: H.Op<Packet>, lost: bool)
    | CheckPktAvail                   // the network's polling interrupt
    | WorkerStep
    | Receiving(box: int, tid: Tid, call: bool)

  /** `PostOffice::Send` fills in the sender's address and checks the length and the box; all machines
      have the same number of boxes.  A call that fails the check ends the sender's run. */
  function Stamped(peer: Word, op: H.Op<Packet>): H.Op<Packet> {
    if op.Call? then op.(request := op.request.(mail := op.request.mail.(from := peer))) else op
  }

  predicate Accepted(s: State, op: H.Op<Packet>) {
    op.Call? ==> Fits(op.request.mail) && op.request.mail.toBox < s.numBoxes
  }

  /** The assertions of `Network::Send` on the packet header. */
  predicate DeviceAccepts(p: Packet, peer: int) {
    0 < |p.mail.data| + HEADER_SIZE <= MAX_PACKET_SIZE && p.mail.from == peer
  }

  /** The packet that reaches the device is for this machine. */
  predicate Passes(h: Sender, op: H.Op<Packet>, here: Word) {
    H.Reaches(h, op) && H.At(h, op.tid).request.mail.to == here
  }

  function NextSending(s: State, peer: Word, op: H.Op<Packet>, lost: bool): State {
    if !Accepted(s, op) then s else
      var h, op' := SenderAt(s.senders, peer), Stamped(peer, op);
      var s1 := s.(senders := s.senders[peer := H.Next(h, op')]);
      if H.Reaches(h, op') && !DeviceAccepts(H.At(h, op'.tid).request, peer) then s1.(failed := true)
      else if Passes(h, op', s.here) then Posted(s1, H.At(h, op'.tid).request, lost)
      else s1
  }

  /** A packet goes on the link, or is lost. */
  function Posted(s: State, p: Packet, lost: bool): State
    requires Fits(p.mail)
  {
    s.(sent := s.sent + [p.mail], socket := if lost then s.socket else s.socket + [OnWire(p)])
  }

  /** `Network::CheckPktAvail`, with the assertion that the packet is for this machine and not too
      long. */
  function NextPoll(s: State): State {
    if s.inbox.Some? || s.socket == [] then s
    else s.(inbox := Some(s.socket[0]), socket := s.socket[1..], messageAvailable := V(s.messageAvailable),
            failed := s.failed || Decode(s.socket[0]).to != s.here || InboxLength(s.socket[0]) > MAX_PACKET_SIZE)
  }

  /** A step of the worker inside `MailBox::Put`. */
  function NextPut(s: State, b: int, op: SL.Op<Mail>): State {
    s.(boxes := s.boxes[b := SL.Next(BoxAt(s.boxes, b), op)])
  }

  function NextWorker(s: State): State {
    match s.worker
    case InP =>
      if WORKER in s.messageAvailable.queue then s
      else s.(messageAvailable := TryP(s.messageAvailable, WORKER),
              worker := if s.messageAvailable.value > 0 then Woken else InP)
    case Woken =>
      if s.inbox.None? then s.(failed := true)
      else s.(inbox := None, worker := Delivering(Decode(s.inbox.value)),
              failed := s.failed || MailLength(s.inbox.value) > MAX_MAIL_SIZE)
    case Delivering(m) =>
      if m.toBox >= s.numBoxes then s.(failed := true)
      else NextPut(s, m.toBox, SL.CallAppend(WORKER, m)).(worker := Putting(m))
    case Putting(m) =>
      var s1 := NextPut(s, m.toBox, SL.Step(WORKER));
      if SL.JobIn(BoxAt(s1.boxes, m.toBox).jobs, WORKER).AppendDone?
      then s1.(worker := Leaving(m.toBox), delivered := s.delivered + [m]) else s1
    case Leaving(b) =>
      var s1 := NextPut(s, b, SL.Step(WORKER));
      if SL.JobIn(BoxAt(s1.boxes, b).jobs, WORKER).Idle? then s1.(worker := InP) else s1
  }

  /** A step of another thread inside `PostOffice::Receive`, which checks the length of the mail that
      it got. */
  function NextReceiving(s: State, b: int, t: Tid, call: bool): State {
    if t == WORKER || !(0 <= b < s.numBoxes) then s
    else
      var s1 := NextPut(s, b, if call then SL.CallRemove(t) else SL.Step(t));
      if TooLong(BoxAt(s.boxes, b).removed, BoxAt(s1.boxes, b).removed) then s1.(failed := true) else s1
  }

  /** Mail was taken that is longer than `Receive` allows. */
  predicate TooLong(removed: seq<Mail>, removed': seq<Mail>) {
    |removed'| > |removed| && !Fits(removed'[|removed'| - 1])
  }

  function Next(s: State, op: Op): State {
    match op
    case Sending(peer, op', lost) => NextSending(s, peer, op', lost)
    case CheckPktAvail => NextPoll(s)
    case WorkerStep => NextWorker(s)
    case Receiving(b, t, call) => NextReceiving(s, b, t, call)
  }

  // ---------- the invariant ----------

  /** The buffer is full exactly when the semaphore says so, or when the worker has passed P and
      is about to read it. */
  ghost predicate Handshake(s: State) {
    && SemOk(s.messageAvailable)
    && s.messageAvailable.value + (if s.worker.Woken? then 1 else 0) == (if s.inbox.Some? then 1 else 0)
    && (forall t :: t in s.messageAvailable.queue ==> t == WORKER && s.worker.InP?)
    && (forall t :: t in s.messageAvailable.woken ==> t == WORKER)
  }

  function Mails(ws: seq<Wire>): (ms: seq<Mail>)
    ensures |ms| == |ws| && forall i :: 0 <= i < |ws| ==> ms[i] == Decode(ws[i])
  {
    seq(|ws|, i requires 0 <= i < |ws| => Decode(ws[i]))
  }

  /** The mail in the worker's hands. */
  function InHand(w: WorkerPc): seq<Mail> { if w.Delivering? || w.Putting? then [w.mail] else [] }

  /** What has come off the link and is not in a mail box yet, or is still on the link. */
  function UnderWay(s: State): seq<Mail> {
    InHand(s.worker) + (if s.inbox.Some? then [Decode(s.inbox.value)] else []) + Mails(s.socket)
  }

  /** Everything that got through so far, oldest first. */
  function Flow(s: State): seq<Mail> { s.delivered + UnderWay(s) }

  function Only(mails: seq<Mail>, b: int): seq<Mail> {
    if mails == [] then []
    else
      var n := |mails| - 1;
      Only(mails[..n], b) + if mails[n].toBox == b then [mails[n]] else []
  }

  /** The messages of one peer. */
  function By(mails: seq<Mail>, peer: int): seq<Mail> {
    if mails == [] then []
    else
      var n := |mails| - 1;
      By(mails[..n], peer) + if mails[n].from == peer then [mails[n]] else []
  }

  /** The messages of a sender's log that are for this machine. */
  function For(log: seq<Packet>, here: Word): seq<Mail> {
    if log == [] then []
    else
      var n := |log| - 1;
      For(log[..n], here) + if log[n].mail.to == here then [log[n].mail] else []
  }

  /** The worker's job in a box. */
  function WorkerJob(w: WorkerPc, b: int): SL.Job<Mail> {
    if w.Putting? && w.mail.toBox == b then SL.Append(w.mail)
    else if w.Leaving? && w.box == b then SL.AppendDone
    else SL.Idle
  }

  /** A mail box works, nobody but the worker puts mail into it, and it got what was delivered to it. */
  ghost predicate BoxOk(box: Box, w: WorkerPc, delivered: seq<Mail>, b: int) {
    && SL.Inv(box)
    && (forall t :: t != WORKER ==> SL.JobIn(box.jobs, t).Idle? || SL.JobIn(box.jobs, t).Remove?)
    && SL.JobIn(box.jobs, WORKER) == WorkerJob(w, b)
    && box.appended == Only(delivered, b)
  }

  ghost predicate BoxesOk(s: State) {
    forall b {:trigger BoxAt(s.boxes, b)} :: BoxOk(BoxAt(s.boxes, b), s.worker, s.delivered, b)
  }

  /** A sender's device is used properly, and what it sent here is what it logged for here. */
  ghost predicate SenderOk(h: Sender, sent: seq<Mail>, here: Word, numBoxes: nat, peer: int) {
    && H.Inv(h) && By(sent, peer) == For(h.log, here)
    && (forall t {:trigger H.At(h, t)} :: !H.At(h, t).Idle? ==> InOrder(H.At(h, t).request, numBoxes, peer))
  }

  predicate InOrder(p: Packet, numBoxes: nat, peer: int) {
    Fits(p.mail) && p.mail.toBox < numBoxes && p.mail.from == peer
  }

  ghost predicate SenderFine(s: State, peer: int) {
    SenderOk(SenderAt(s.senders, peer), s.sent, s.here, s.numBoxes, peer)
  }

  ghost predicate SendersOk(s: State) {
    forall peer {:trigger SenderFine(s, peer)} :: SenderFine(s, peer)
  }

  /** The part of the invariant that is not about senders. */
  ghost predicate ReceptionOk(s: State) {
    && Handshake(s) && BoxesOk(s) && !s.failed && Subseq(Flow(s), s.sent)
    && (forall m :: m in s.sent ==> Proper(s, m)) && WiresOk(s)
  }

  ghost predicate Proper(s: State, m: Mail) { m.toBox < s.numBoxes && m.to == s.here && Fits(m) }

  /** What is on the link and in the buffer passes the assertions on lengths. */
  ghost predicate WiresOk(s: State) {
    (forall w :: w in s.socket ==> Sound(w)) && (s.inbox.Some? ==> Sound(s.inbox.value))
  }

  ghost predicate Inv(s: State) { ReceptionOk(s) && SendersOk(s) }

  // ---------- sending ----------

  lemma ByAppend(mails: seq<Mail>, m: Mail, peer: int)
    ensures By(mails + [m], peer) == By(mails, peer) + if m.from == peer then [m] else []
  {
    assert (mails + [m])[..|mails|] == mails;
  }

  lemma ForAppend(log: seq<Packet>, p: Packet, here: Word)
    ensures For(log + [p], here) == For(log, here) + if p.mail.to == here then [p.mail] else []
  {
    assert (log + [p])[..|log|] == log;
  }

  /** The requests that threads hold are the ones they had, or the one just called with. */
  lemma RequestsKept(h: Sender, op: H.Op<Packet>, numBoxes: nat, peer: int)
    requires forall t {:trigger H.At(h, t)} :: !H.At(h, t).Idle? ==> InOrder(H.At(h, t).request, numBoxes, peer)
    requires op.Call? ==> InOrder(op.request, numBoxes, peer)
    ensures var h' := H.Next(h, op);
      forall t {:trigger H.At(h', t)} :: !H.At(h', t).Idle? ==> InOrder(H.At(h', t).request, numBoxes, peer)
  {
    var h' := H.Next(h, op);
    forall t | !H.At(h', t).Idle? ensures InOrder(H.At(h', t).request, numBoxes, peer) {
      assert H.At(h, t).Idle? || InOrder(H.At(h, t).request, numBoxes, peer);
    }
  }

  /** What has been sent here after a step of a sender. */
  function SentAfter(sent: seq<Mail>, h: Sender, op: H.Op<Packet>, here: Word): seq<Mail> {
    if Passes(h, op, here) then sent + [H.At(h, op.tid).request.mail] else sent
  }

  lemma SenderStep(h: Sender, op: H.Op<Packet>, sent: seq<Mail>, here: Word, numBoxes: nat, peer: int)
    requires SenderOk(h, sent, here, numBoxes, peer) && (op.Call? ==> InOrder(op.request, numBoxes, peer))
    ensures SenderOk(H.Next(h, op), SentAfter(sent, h, op, here), here, numBoxes, peer)
  {
    H.NextKeepsInv(h, op);
    H.NextLog(h, op);
    RequestsKept(h, op, numBoxes, peer);
    if H.Reaches(h, op) {
      var r := H.At(h, op.tid).request;
      ByAppend(sent, r.mail, peer);
      ForAppend(h.log, r, here);
    }
  }

  /** The other senders' mail is their own. */
  lemma OtherSender(h: Sender, op: H.Op<Packet>, sent: seq<Mail>, here: Word, numBoxes: nat, peer: int, other: int)
    requires SenderOk(h, sent, here, numBoxes, peer) && other != peer
    ensures By(SentAfter(sent, h, op, here), other) == By(sent, other)
  {
    if H.Reaches(h, op) {
      ByAppend(sent, H.At(h, op.tid).request.mail, other);
    }
  }

  lemma OneSenderChanged(s: State, s': State, peer: int, h': Sender)
    requires SendersOk(s) && s'.senders == s.senders[peer := h'] && s'.here == s.here && s'.numBoxes == s.numBoxes
    requires SenderOk(h', s'.sent, s.here, s.numBoxes, peer)
    requires forall p :: p != peer ==> By(s'.sent, p) == By(s.sent, p)
    ensures SendersOk(s')
  {
    forall p ensures SenderFine(s', p) {
      assert SenderFine(s, p);
    }
  }

  /** A packet that gets to the device passes the assertions there. */
  lemma ReachesAccepted(h: Sender, op: H.Op<Packet>, sent: seq<Mail>, here: Word, numBoxes: nat, peer: int)
    requires SenderOk(h, sent, here, numBoxes, peer) && H.Reaches(h, op)
    ensures InOrder(H.At(h, op.tid).request, numBoxes, peer) && DeviceAccepts(H.At(h, op.tid).request, peer)
  {}

  lemma SendingShape(s: State, peer: Word, op: H.Op<Packet>, lost: bool)
    requires Accepted(s, op)
    requires var h, op' := SenderAt(s.senders, peer), Stamped(peer, op);
      H.Reaches(h, op') ==> DeviceAccepts(H.At(h, op'.tid).request, peer)
    ensures var s', h, op' := NextSending(s, peer, op, lost), SenderAt(s.senders, peer), Stamped(peer, op);
      && s'.senders == s.senders[peer := H.Next(h, op')] && s'.here == s.here && s'.numBoxes == s.numBoxes
      && s'.sent == SentAfter(s.sent, h, op', s.here)
  {}

  lemma SendersAfter(s: State, s': State, peer: int, h: Sender, op: H.Op<Packet>, h': Sender)
    requires SendersOk(s) && h == SenderAt(s.senders, peer)
    requires s'.senders == s.senders[peer := h'] && s'.here == s.here && s'.numBoxes == s.numBoxes
    requires s'.sent == SentAfter(s.sent, h, op, s.here) && SenderOk(h', s'.sent, s.here, s.numBoxes, peer)
    ensures SendersOk(s')
  {
    assert SenderFine(s, peer);
    forall p | p != peer ensures By(s'.sent, p) == By(s.sent, p) {
      OtherSender(h, op, s.sent, s.here, s.numBoxes, peer, p);
    }
    OneSenderChanged(s, s', peer, h');
  }

  lemma SenderKept(s: State, peer: Word, op: H.Op<Packet>, lost: bool)
    requires SendersOk(s) && Accepted(s, op)
    ensures SendersOk(NextSending(s, peer, op, lost))
  {
    var s', h, op' := NextSending(s, peer, op, lost), SenderAt(s.senders, peer), Stamped(peer, op);
    assert SenderFine(s, peer);
    SenderStep(h, op', s.sent, s.here, s.numBoxes, peer);
    if H.Reaches(h, op') {
      ReachesAccepted(h, op', s.sent, s.here, s.numBoxes, peer);
    }
    SendingShape(s, peer, op, lost);
    SendersAfter(s, s', peer, h, op', H.Next(h, op'));
  }

  /** A message is put on the link or lost. */
  lemma FlowPosted(s: State, p: Packet, lost: bool)
    requires Fits(p.mail) && Subseq(Flow(s), s.sent)
    ensures Subseq(Flow(Posted(s, p, lost)), Posted(s, p, lost).sent)
  {
    var s' := Posted(s, p, lost);
    if lost {
      Skip(Flow(s), s.sent, p.mail);
    } else {
      Extend(Flow(s), s.sent, p.mail);
      OnWireIntact(p);
      assert Mails(s'.socket) == Mails(s.socket) + [p.mail];
      assert Flow(s') == Flow(s) + [p.mail];
    }
  }

  lemma PostedWires(s: State, p: Packet, lost: bool)
    requires Fits(p.mail) && WiresOk(s)
    ensures WiresOk(Posted(s, p, lost))
  {
    OnWireIntact(p);
    var w := OnWire(p);
    assert forall x :: x in s.socket + [w] ==> x in s.socket || x == w;
  }

  lemma PostedOk(s: State, p: Packet, lost: bool)
    requires ReceptionOk(s) && Proper(s, p.mail)
    ensures ReceptionOk(Posted(s, p, lost))
  {
    var s' := Posted(s, p, lost);
    PostedWires(s, p, lost);
    FlowPosted(s, p, lost);
    SameBoxesOk(s, s');
    forall m | m in s'.sent ensures Proper(s', m) {
      assert m in s.sent ==> Proper(s, m);
    }
  }

  lemma SameReception(s: State, s': State)
    requires ReceptionOk(s) && s' == s.(senders := s'.senders)
    ensures ReceptionOk(s')
  {
    SameBoxesOk(s, s');
    SameProper(s, s');
  }

  lemma SendingKeepsInv(s: State, peer: Word, op: H.Op<Packet>, lost: bool)
    requires Inv(s) && Accepted(s, op)
    ensures Inv(NextSending(s, peer, op, lost))
  {
    var h, op' := SenderAt(s.senders, peer), Stamped(peer, op);
    SenderKept(s, peer, op, lost);
    assert SenderFine(s, peer);
    var s1 := s.(senders := s.senders[peer := H.Next(h, op')]);
    SameReception(s, s1);
    if H.Reaches(h, op') {
      ReachesAccepted(h, op', s.sent, s.here, s.numBoxes, peer);
    }
    if Passes(h, op', s.here) {
      PostedOk(s1, H.At(h, op'.tid).request, lost);
    }
  }

  // ---------- arrival ----------

  /** The packet in front of the link is for this machine. */
  lemma FrontIsHere(s: State)
    requires Inv(s) && s.socket != []
    ensures Decode(s.socket[0]).to == s.here
  {
    var i := |s.delivered| + |InHand(s.worker)| + if s.inbox.Some? then 1 else 0;
    assert Flow(s)[i] == Mails(s.socket)[0];
    Members(Flow(s), s.sent, Flow(s)[i]);
  }

  lemma PollKeepsFlow(s: State)
    ensures UnderWay(NextPoll(s)) == UnderWay(s)
  {
    if s.inbox.None? && s.socket != [] {
      var hand := InHand(s.worker);
      var first, rest := Decode(s.socket[0]), Mails(s.socket[1..]);
      assert Mails(s.socket) == [first] + rest;
      assert hand + [] == hand;
      Reassociate(hand, first, rest);
    }
  }

  lemma PollKeepsWires(s: State)
    requires WiresOk(s)
    ensures WiresOk(NextPoll(s))
  {
    assert s.socket != [] ==> s.socket[0] in s.socket && forall w :: w in s.socket[1..] ==> w in s.socket;
  }

  lemma PollAccepted(s: State)
    requires Inv(s)
    ensures NextPoll(s).failed == s.failed
  {
    if s.socket != [] {
      FrontIsHere(s);
      assert s.socket[0] in s.socket;
    }
  }

  lemma PollKeepsHandshake(s: State)
    requires Handshake(s)
    ensures Handshake(NextPoll(s))
  {
    VOk(s.messageAvailable);
  }

  lemma PollKeepsInv(s: State)
    requires Inv(s)
    ensures Inv(NextPoll(s))
  {
    var s' := NextPoll(s);
    PollKeepsHandshake(s);
    PollKeepsFlow(s);
    PollKeepsWires(s);
    PollAccepted(s);
    SameSendersOk(s, s');
    SameBoxesOk(s, s');
    SameProper(s, s');
  }

  lemma SameProper(s: State, s': State)
    requires s'.sent == s.sent && s'.here == s.here && s'.numBoxes == s.numBoxes
    requires forall m :: m in s.sent ==> Proper(s, m)
    ensures forall m :: m in s'.sent ==> Proper(s', m)
  {
    forall m | m in s'.sent ensures Proper(s', m) {
      assert Proper(s, m);
    }
  }

  lemma SameSendersOk(s: State, s': State)
    requires SendersOk(s) && s'.senders == s.senders && s'.sent == s.sent && s'.here == s.here && s'.numBoxes == s.numBoxes
    ensures SendersOk(s')
  {
    forall p ensures SenderFine(s', p) {
      assert SenderFine(s, p);
    }
  }

  lemma SameBoxesOk(s: State, s': State)
    requires BoxesOk(s) && s'.boxes == s.boxes && s'.delivered == s.delivered
    requires forall b :: WorkerJob(s'.worker, b) == WorkerJob(s.worker, b)
    ensures BoxesOk(s')
  {
    forall b ensures BoxOk(BoxAt(s'.boxes, b), s'.worker, s'.delivered, b) {
      assert BoxOk(BoxAt(s.boxes, b), s.worker, s.delivered, b);
    }
  }

  // ---------- the worker ----------

  lemma ReadKeepsHandshake(s: State)
    requires Handshake(s) && WiresOk(s) && (s.worker.InP? || s.worker.Woken?)
    ensures Handshake(NextWorker(s)) && WiresOk(NextWorker(s)) && NextWorker(s).failed == s.failed
  {
    if s.worker.InP? && WORKER !in s.messageAvailable.queue {
      TryPOk(s.messageAvailable, WORKER);
    }
  }

  lemma ReadKeepsFlow(s: State)
    requires Handshake(s) && (s.worker.InP? || s.worker.Woken?)
    ensures UnderWay(NextWorker(s)) == UnderWay(s)
  {}

  /** Waiting for mail and reading the packet. */
  lemma ReadKeepsInv(s: State)
    requires Inv(s) && (s.worker.InP? || s.worker.Woken?)
    ensures Inv(NextWorker(s))
  {
    ReadKeepsHandshake(s);
    ReadKeepsFlow(s);
    SameSendersOk(s, NextWorker(s));
    SameBoxesOk(s, NextWorker(s));
    SameProper(s, NextWorker(s));
  }

  lemma OnlyAppend(mails: seq<Mail>, m: Mail, b: int)
    ensures Only(mails + [m], b) == Only(mails, b) + if m.toBox == b then [m] else []
  {
    assert (mails + [m])[..|mails|] == mails;
  }

  /** What a step of the worker does in a box. */
  lemma WorkerInBox(box: Box, op: SL.Op<Mail>)
    requires SL.Inv(box) && op.tid == WORKER && !op.CallRemove?
    ensures var box' := SL.Next(box, op);
      var job, job' := SL.JobIn(box.jobs, WORKER), SL.JobIn(box'.jobs, WORKER);
      && SL.Inv(box')
      && (forall t :: t != WORKER ==> SL.JobIn(box'.jobs, t) == SL.JobIn(box.jobs, t))
      && (op.CallAppend? && job.Idle? ==> job' == SL.Append(op.item) && box'.appended == box.appended)
      && (op.Step? && job.Append? ==>
            || (job' == job && box'.appended == box.appended)
            || (job' == SL.AppendDone && box'.appended == box.appended + [job.item]))
      && (op.Step? && job.AppendDone? ==> (job' == job || job' == SL.Idle) && box'.appended == box.appended)
  {
    SL.NextKeepsInv(box, op);
  }

  /** What a step of another thread does in a box. */
  lemma ReceiverInBox(box: Box, op: SL.Op<Mail>)
    requires SL.Inv(box) && op.tid != WORKER && !op.CallAppend?
    requires SL.JobIn(box.jobs, op.tid).Idle? || SL.JobIn(box.jobs, op.tid).Remove?
    ensures var box' := SL.Next(box, op);
      && SL.Inv(box') && box'.appended == box.appended
      && (box'.removed == box.removed || (box.list != [] && box'.removed == box.removed + [box.list[0]]))
      && (forall t :: t != op.tid ==> SL.JobIn(box'.jobs, t) == SL.JobIn(box.jobs, t))
      && (SL.JobIn(box'.jobs, op.tid).Idle? || SL.JobIn(box'.jobs, op.tid).Remove?)
  {
    SL.NextKeepsInv(box, op);
  }

  /** One box changes, and the others see no change of the worker's job. */
  lemma OneBoxChanged(s: State, s': State, b: int, box': Box)
    requires BoxesOk(s) && s'.boxes == s.boxes[b := box'] && BoxOk(box', s'.worker, s'.delivered, b)
    requires forall c :: c != b ==> WorkerJob(s'.worker, c) == WorkerJob(s.worker, c)
    requires forall c :: c != b ==> Only(s'.delivered, c) == Only(s.delivered, c)
    ensures BoxesOk(s')
  {
    forall c ensures BoxOk(BoxAt(s'.boxes, c), s'.worker, s'.delivered, c) {
      assert c != b ==> BoxOk(BoxAt(s.boxes, c), s.worker, s.delivered, c);
    }
  }

  /** What stays as it is while the worker is at a box. */
  ghost predicate AtBox(s: State, s': State) {
    s' == s.(boxes := s'.boxes, worker := s'.worker, delivered := s'.delivered) && !s.worker.InP? && !s.worker.Woken?
  }

  lemma AtBoxKeepsInv(s: State, s': State)
    requires Inv(s) && AtBox(s, s') && BoxesOk(s') && !s'.worker.Woken? && Flow(s') == Flow(s)
    ensures Inv(s')
  {
    SameSendersOk(s, s');
    SameProper(s, s');
  }

  lemma DeliveringKeepsBoxes(s: State)
    requires BoxesOk(s) && s.worker.Delivering? && s.worker.mail.toBox < s.numBoxes
    ensures BoxesOk(NextWorker(s))
  {
    var s', m := NextWorker(s), s.worker.mail;
    var box := BoxAt(s.boxes, m.toBox);
    assert BoxOk(box, s.worker, s.delivered, m.toBox);
    WorkerInBox(box, SL.CallAppend(WORKER, m));
    OneBoxChanged(s, s', m.toBox, SL.Next(box, SL.CallAppend(WORKER, m)));
  }

  lemma DeliveringShape(s: State)
    requires s.worker.Delivering? && s.worker.mail.toBox < s.numBoxes
    ensures var s' := NextWorker(s);
      AtBox(s, s') && s'.worker == Putting(s.worker.mail) && s'.delivered == s.delivered && Flow(s') == Flow(s)
  {}

  lemma DeliveringKeepsInv(s: State)
    requires Inv(s) && s.worker.Delivering?
    ensures Inv(NextWorker(s))
  {
    assert s.worker.mail == Flow(s)[|s.delivered|];
    Members(Flow(s), s.sent, s.worker.mail);
    DeliveringKeepsBoxes(s);
    DeliveringShape(s);
    AtBoxKeepsInv(s, NextWorker(s));
  }

  lemma PuttingKeepsBoxes(s: State)
    requires BoxesOk(s) && s.worker.Putting?
    ensures BoxesOk(NextWorker(s))
  {
    var s', m := NextWorker(s), s.worker.mail;
    var box := BoxAt(s.boxes, m.toBox);
    assert BoxOk(box, s.worker, s.delivered, m.toBox);
    WorkerInBox(box, SL.Step(WORKER));
    forall c ensures Only(s.delivered + [m], c) == Only(s.delivered, c) + if m.toBox == c then [m] else [] {
      OnlyAppend(s.delivered, m, c);
    }
    OneBoxChanged(s, s', m.toBox, SL.Next(box, SL.Step(WORKER)));
  }

  lemma PuttingShape(s: State)
    requires s.worker.Putting?
    ensures var s' := NextWorker(s);
      && AtBox(s, s') && !s'.worker.Woken?
      && (|| (s'.worker == s.worker && s'.delivered == s.delivered)
          || (s'.worker == Leaving(s.worker.mail.toBox) && s'.delivered == s.delivered + [s.worker.mail]))
  {}

  lemma PuttingKeepsFlow(s: State)
    requires s.worker.Putting?
    ensures Flow(NextWorker(s)) == Flow(s)
  {
    PuttingShape(s);
    if NextWorker(s).worker.Leaving? {
      HandEmptied(s, NextWorker(s));
    }
  }

  lemma HandEmptied(s: State, s': State)
    requires s.worker.Putting? && s'.worker.Leaving? && AtBox(s, s') && s'.delivered == s.delivered + [s.worker.mail]
    ensures Flow(s') == Flow(s)
  {
    assert UnderWay(s) == [s.worker.mail] + UnderWay(s');
    Reassociate(s.delivered, s.worker.mail, UnderWay(s'));
  }

  lemma PuttingKeepsInv(s: State)
    requires Inv(s) && s.worker.Putting?
    ensures Inv(NextWorker(s))
  {
    PuttingKeepsBoxes(s);
    PuttingShape(s);
    PuttingKeepsFlow(s);
    AtBoxKeepsInv(s, NextWorker(s));
  }

  lemma LeavingKeepsBoxes(s: State)
    requires BoxesOk(s) && s.worker.Leaving?
    ensures BoxesOk(NextWorker(s))
  {
    var s', b := NextWorker(s), s.worker.box;
    var box := BoxAt(s.boxes, b);
    assert BoxOk(box, s.worker, s.delivered, b);
    WorkerInBox(box, SL.Step(WORKER));
    OneBoxChanged(s, s', b, SL.Next(box, SL.Step(WORKER)));
  }

  lemma LeavingShape(s: State)
    requires s.worker.Leaving?
    ensures var s' := NextWorker(s);
      AtBox(s, s') && (s'.worker.InP? || s'.worker == s.worker) && s'.delivered == s.delivered && Flow(s') == Flow(s)
  {}

  lemma LeavingKeepsInv(s: State)
    requires Inv(s) && s.worker.Leaving?
    ensures Inv(NextWorker(s))
  {
    LeavingKeepsBoxes(s);
    LeavingShape(s);
    AtBoxKeepsInv(s, NextWorker(s));
  }

  // ---------- receiving ----------

  lemma {:induction false} OnlyMembers(mails: seq<Mail>, b: int, m: Mail)
    requires m in Only(mails, b)
    ensures m in mails
  {
    var n := |mails| - 1;
    if m in Only(mails[..n], b) {
      OnlyMembers(mails[..n], b, m);
    }
  }

  /** Mail in a box was sent, so it is not too long. */
  lemma BoxedFits(s: State, b: int)
    requires ReceptionOk(s) && BoxAt(s.boxes, b).list != []
    ensures Fits(BoxAt(s.boxes, b).list[0])
  {
    var box := BoxAt(s.boxes, b);
    var m := box.list[0];
    assert BoxOk(box, s.worker, s.delivered, b);
    assert m == box.appended[|box.removed|];
    OnlyMembers(s.delivered, b, m);
    assert m in Flow(s);
    Members(Flow(s), s.sent, m);
    assert Proper(s, m);
  }

  lemma ReceivingKeepsBoxes(s: State, b: int, t: Tid, call: bool)
    requires BoxesOk(s) && t != WORKER && 0 <= b < s.numBoxes
    ensures BoxesOk(NextReceiving(s, b, t, call))
  {
    var s', op := NextReceiving(s, b, t, call), if call then SL.CallRemove(t) else SL.Step(t);
    var box := BoxAt(s.boxes, b);
    assert BoxOk(box, s.worker, s.delivered, b);
    ReceiverInBox(box, op);
    OneBoxChanged(s, s', b, SL.Next(box, op));
  }

  lemma ReceivedFits(s: State, b: int, t: Tid, call: bool)
    requires ReceptionOk(s) && t != WORKER && 0 <= b < s.numBoxes
    ensures NextReceiving(s, b, t, call) == s.(boxes := NextReceiving(s, b, t, call).boxes)
  {
    var box, op := BoxAt(s.boxes, b), if call then SL.CallRemove(t) else SL.Step(t);
    assert BoxOk(box, s.worker, s.delivered, b);
    ReceiverInBox(box, op);
    if box.list != [] {
      BoxedFits(s, b);
    }
  }

  lemma ReceivingKeepsInv(s: State, b: int, t: Tid, call: bool)
    requires Inv(s)
    ensures Inv(NextReceiving(s, b, t, call))
  {
    if t != WORKER && 0 <= b < s.numBoxes {
      var s' := NextReceiving(s, b, t, call);
      ReceivedFits(s, b, t, call);
      ReceivingKeepsBoxes(s, b, t, call);
      SameSendersOk(s, s');
      SameProper(s, s');
      assert UnderWay(s') == UnderWay(s);
    }
  }

  // ---------- every run ----------

  lemma NextKeepsInv(s: State, op: Op)
    requires Inv(s)
    ensures Inv(Next(s, op))
  {
    match op
    case Sending(peer, op', lost) => if Accepted(s, op') { SendingKeepsInv(s, peer, op', lost); }
    case CheckPktAvail => PollKeepsInv(s);
    case WorkerStep =>
      if s.worker.Delivering? {
        DeliveringKeepsInv(s);
      } else if s.worker.Putting? {
        PuttingKeepsInv(s);
      } else if s.worker.Leaving? {
        LeavingKeepsInv(s);
      } else {
        ReadKeepsInv(s);
      }
    case Receiving(b, t, call) => ReceivingKeepsInv(s, b, t, call);
  }

  function Run(s: State, ops: seq<Op>): State {
    if ops == [] then s else Next(Run(s, ops[..|ops| - 1]), ops[|ops| - 1])
  }

  lemma NewBoxOk(box: Box, w: WorkerPc, delivered: seq<Mail>, b: int)
    requires box == SL.Start() && w.InP? && delivered == []
    ensures BoxOk(box, w, delivered, b)
  {
    NewMonitorOk(1);
  }

  lemma NewSenderOk(s: State, peer: int)
    requires s.senders == map[] && s.sent == []
    ensures SenderFine(s, peer)
  {}

  lemma NoBoxesYet(s: State)
    requires s.boxes == map[] && s.worker.InP? && s.delivered == []
    ensures BoxesOk(s)
  {
    forall b ensures BoxOk(BoxAt(s.boxes, b), s.worker, s.delivered, b) {
      NewBoxOk(BoxAt(s.boxes, b), s.worker, s.delivered, b);
    }
  }

  lemma NoSendersYet(s: State)
    requires s.senders == map[] && s.sent == []
    ensures SendersOk(s)
  {
    forall p ensures SenderFine(s, p) {
      NewSenderOk(s, p);
    }
  }

  lemma StartOk(here: Word, numBoxes: nat)
    ensures Inv(Start(here, numBoxes))
  {
    NoBoxesYet(Start(here, numBoxes));
    NoSendersYet(Start(here, numBoxes));
  }

  lemma {:induction false} RunKeepsInv(here: Word, numBoxes: nat, ops: seq<Op>)
    ensures Inv(Run(Start(here, numBoxes), ops))
  {
    if ops == [] {
      StartOk(here, numBoxes);
    } else {
      RunKeepsInv(here, numBoxes, ops[..|ops| - 1]);
      NextKeepsInv(Run(Start(here, numBoxes), ops[..|ops| - 1]), ops[|ops| - 1]);
    }
  }

  /** No assertion fails: the worker never reads an empty buffer, every packet is for this machine
      and for one of its boxes, all lengths are within their limits at the devices, at the worker and
      at the receivers, and no device is asked to send while it is busy. */
  lemma NoAssertionFails(here: Word, numBoxes: nat, ops: seq<Op>, peer: int)
    ensures var s := Run(Start(here, numBoxes), ops);
            && !s.failed && (s.worker.Woken? ==> s.inbox.Some?)
            && !SenderAt(s.senders, peer).failed && SenderAt(s.senders, peer).outstanding <= 1
  {
    RunKeepsInv(here, numBoxes, ops);
    SenderInv(here, numBoxes, ops, peer);
  }

  /** The assertions that are found to hold are the ones of the source: a packet for another machine or with too long a
      body on arrival, an empty buffer or too long a mail at the worker, a box that does not exist, a packet that
      the sender's device does not take, and, below, mail that is too long for its receiver, each fail one. */
  lemma AssertionsFire(s: State, peer: Word, op: H.Op<Packet>, lost: bool)
    ensures s.inbox.None? && s.socket != [] && (Decode(s.socket[0]).to != s.here || InboxLength(s.socket[0]) > 52) ==>
      NextPoll(s).failed
    ensures s.worker.Woken? && (s.inbox.None? || MailLength(s.inbox.value) > 40) ==> NextWorker(s).failed
    ensures s.worker.Delivering? && s.worker.mail.toBox >= s.numBoxes ==> NextWorker(s).failed
    ensures var h := SenderAt(s.senders, peer);
      op.Step? && H.At(h, op.tid).Body?
      && (H.At(h, op.tid).request.mail.from != peer || |H.At(h, op.tid).request.mail.data| > 40) ==>
        NextSending(s, peer, op, lost).failed
  {}

  lemma ReceiverFails(s: State, b: int, t: Tid, call: bool)
    ensures var before, after := BoxAt(s.boxes, b).removed, BoxAt(NextReceiving(s, b, t, call).boxes, b).removed;
      |after| > |before| && |after[|after| - 1].data| > 40 ==> NextReceiving(s, b, t, call).failed
  {}

  lemma {:induction false} SubseqOnly(a: seq<Mail>, b: seq<Mail>, box: int)
    requires Subseq(a, b)
    ensures Subseq(Only(a, box), Only(b, box))
    decreases |b|
  {
    if a != [] {
      var m, n := |a| - 1, |b| - 1;
      if Subseq(a, b[..n]) {
        SubseqOnly(a, b[..n], box);
        if b[n].toBox == box { Skip(Only(a, box), Only(b[..n], box), b[n]); }
        else { assert Only(b, box) == Only(b[..n], box); }
      } else {
        SubseqOnly(a[..m], b[..n], box);
        if b[n].toBox == box { Extend(Only(a[..m], box), Only(b[..n], box), b[n]); }
        else { assert Only(a, box) == Only(a[..m], box) && Only(b, box) == Only(b[..n], box); }
      }
    }
  }

  lemma {:induction false} SubseqBy(a: seq<Mail>, b: seq<Mail>, peer: int)
    requires Subseq(a, b)
    ensures Subseq(By(a, peer), By(b, peer))
    decreases |b|
  {
    if a != [] {
      var m, n := |a| - 1, |b| - 1;
      if Subseq(a, b[..n]) {
        SubseqBy(a, b[..n], peer);
        if b[n].from == peer { Skip(By(a, peer), By(b[..n], peer), b[n]); }
        else { assert By(b, peer) == By(b[..n], peer); }
      } else {
        SubseqBy(a[..m], b[..n], peer);
        if b[n].from == peer { Extend(By(a[..m], peer), By(b[..n], peer), b[n]); }
        else { assert By(a, peer) == By(a[..m], peer) && By(b, peer) == By(b[..n], peer); }
      }
    }
  }

  /** Picking out a box and picking out a peer commute. */
  lemma {:induction false} OnlyBy(mails: seq<Mail>, box: int, peer: int)
    ensures By(Only(mails, box), peer) == Only(By(mails, peer), box)
  {
    if mails != [] {
      var n := |mails| - 1;
      var m := mails[n];
      OnlyBy(mails[..n], box, peer);
      ByAppend(Only(mails[..n], box), m, peer);
      OnlyAppend(By(mails[..n], peer), m, box);
      assert m.toBox != box ==> Only(mails, box) == Only(mails[..n], box);
      assert m.from != peer ==> By(mails, peer) == By(mails[..n], peer);
    }
  }

  /** The mail taken from a box is, peer by peer, a subsequence of what that peer's device was given
      for this machine and that box: in order, uncorrupted, and none of it twice. */
  lemma MailInOrder(here: Word, numBoxes: nat, ops: seq<Op>, box: int, peer: int)
    ensures var s := Run(Start(here, numBoxes), ops);
            Subseq(By(BoxAt(s.boxes, box).removed, peer), Only(For(SenderAt(s.senders, peer).log, here), box))
  {
    RunKeepsInv(here, numBoxes, ops);
    var s := Run(Start(here, numBoxes), ops);
    var mb := BoxAt(s.boxes, box);
    SameHere(here, numBoxes, ops);
    assert BoxOk(mb, s.worker, s.delivered, box) && SenderFine(s, peer);
    Shorten(s.delivered, UnderWay(s), s.sent);
    SubseqOnly(s.delivered, s.sent, box);
    Shorten(mb.removed, mb.list, Only(s.sent, box));
    SubseqBy(mb.removed, Only(s.sent, box), peer);
    OnlyBy(s.sent, box, peer);
  }

  lemma WorkerKeeps(s: State)
    ensures var s' := NextWorker(s); s'.here == s.here && s'.numBoxes == s.numBoxes && s'.senders == s.senders
  {
    if s.worker.Putting? {
      PuttingShape(s);
    } else if s.worker.Leaving? {
      LeavingShape(s);
    } else if s.worker.Delivering? && s.worker.mail.toBox < s.numBoxes {
      DeliveringShape(s);
    }
  }

  lemma ReceivingKeeps(s: State, b: int, t: Tid, call: bool)
    ensures var s' := NextReceiving(s, b, t, call); s'.here == s.here && s'.numBoxes == s.numBoxes && s'.senders == s.senders
  {}

  lemma SendingKeeps(s: State, peer: Word, op: H.Op<Packet>, lost: bool)
    ensures var s' := NextSending(s, peer, op, lost); s'.here == s.here && s'.numBoxes == s.numBoxes
  {}

  lemma NextHere(s: State, op: Op)
    ensures Next(s, op).here == s.here && Next(s, op).numBoxes == s.numBoxes
    ensures !op.Sending? ==> Next(s, op).senders == s.senders
  {
    match op
    case Sending(peer, op', lost) => SendingKeeps(s, peer, op', lost);
    case CheckPktAvail =>
    case WorkerStep => WorkerKeeps(s);
    case Receiving(b, t, call) => ReceivingKeeps(s, b, t, call);
  }

  lemma {:induction false} SameHere(here: Word, numBoxes: nat, ops: seq<Op>)
    ensures Run(Start(here, numBoxes), ops).here == here && Run(Start(here, numBoxes), ops).numBoxes == numBoxes
  {
    if ops != [] {
      SameHere(here, numBoxes, ops[..|ops| - 1]);
      NextHere(Run(Start(here, numBoxes), ops[..|ops| - 1]), ops[|ops| - 1]);
    }
  }

  /** Mail in a box finds a taker: no wakeup of a waiting receiver is lost. */
  lemma MailFindsTaker(here: Word, numBoxes: nat, ops: seq<Op>, box: int)
    ensures SL.TakerFound(BoxAt(Run(Start(here, numBoxes), ops).boxes, box))
  {
    RunKeepsInv(here, numBoxes, ops);
    var s := Run(Start(here, numBoxes), ops);
    assert BoxOk(BoxAt(s.boxes, box), s.worker, s.delivered, box);
    SL.InvFindsTaker(BoxAt(s.boxes, box));
  }

  lemma SenderInv(here: Word, numBoxes: nat, ops: seq<Op>, peer: int)
    ensures H.Inv(SenderAt(Run(Start(here, numBoxes), ops).senders, peer))
  {
    RunKeepsInv(here, numBoxes, ops);
    var s := Run(Start(here, numBoxes), ops);
    assert SenderFine(s, peer);
  }

  /** `PostOffice::Send` returns only after its own message has been given to the device and the
      device has reported that it is gone. */
  lemma SendReturnsAfterOwn(here: Word, numBoxes: nat, ops: seq<Op>, peer: int, t: Tid)
    ensures H.AfterOwn(SenderAt(Run(Start(here, numBoxes), ops).senders, peer), t)
  {
    SenderInv(here, numBoxes, ops, peer);
    H.InvAfterOwn(SenderAt(Run(Start(here, numBoxes), ops).senders, peer), t);
  }

  // ---------- nothing but losses is missing ----------

  /** The mail for this machine that a step gave to a peer's device. */
  ghost function Given(s: State, s': State, peer: int): seq<Mail> {
    var log, log' := SenderAt(s.senders, peer).log, SenderAt(s'.senders, peer).log;
    if |log| <= |log'| then For(log'[|log|..], s.here) else []
  }

  ghost function GivenIn(s: State, op: Op): seq<Mail> { if op.Sending? then Given(s, Next(s, op), op.peer) else [] }

  /** The mail that was given to the devices over a run, without that of the steps at which the link loses
      what it gets. */
  ghost function Carried(here: Word, numBoxes: nat, ops: seq<Op>): seq<Mail> {
    if ops == [] then []
    else
      var before, op := ops[..|ops| - 1], ops[|ops| - 1];
      Carried(here, numBoxes, before) +
      if op.Sending? && op.lost then [] else GivenIn(Run(Start(here, numBoxes), before), op)
  }

  lemma ForSingle(p: Packet, here: Word)
    ensures For([p], here) == if p.mail.to == here then [p.mail] else []
  {
    ForAppend([], p, here);
    assert [] + [p] == [p];
  }

  lemma LogGrowth(h: Sender, op: H.Op<Packet>, here: Word)
    ensures |h.log| <= |H.Next(h, op).log|
    ensures For(H.Next(h, op).log[|h.log|..], here) ==
      if Passes(h, op, here) then [H.At(h, op.tid).request.mail] else []
  {
    H.NextLog(h, op);
    if H.Reaches(h, op) {
      var p := H.At(h, op.tid).request;
      ForSingle(p, here);
      assert (h.log + [p])[|h.log|..] == [p];
    }
  }

  lemma DeviceFine(s: State, peer: Word, op: H.Op<Packet>)
    requires Inv(s)
    ensures var h := SenderAt(s.senders, peer);
      H.Reaches(h, op) ==> DeviceAccepts(H.At(h, op.tid).request, peer) && Fits(H.At(h, op.tid).request.mail)
  {
    assert SenderFine(s, peer);
    if H.Reaches(SenderAt(s.senders, peer), op) {
      ReachesAccepted(SenderAt(s.senders, peer), op, s.sent, s.here, s.numBoxes, peer);
    }
  }

  lemma GivenFrom(s: State, s': State, peer: int, h: Sender, h': Sender)
    requires h == SenderAt(s.senders, peer) && s'.senders == s.senders[peer := h'] && |h.log| <= |h'.log|
    ensures Given(s, s', peer) == For(h'.log[|h.log|..], s.here)
  {}

  /** What a step of a sender gives to its device. */
  lemma GivenWhat(s: State, peer: Word, op: H.Op<Packet>, lost: bool)
    requires Inv(s) && Accepted(s, op)
    ensures var h, op' := SenderAt(s.senders, peer), Stamped(peer, op);
      Given(s, NextSending(s, peer, op, lost), peer) ==
        if Passes(h, op', s.here) then [H.At(h, op'.tid).request.mail] else []
  {
    var h, op' := SenderAt(s.senders, peer), Stamped(peer, op);
    DeviceFine(s, peer, op');
    SendingShape(s, peer, op, lost);
    LogGrowth(h, op', s.here);
    GivenFrom(s, NextSending(s, peer, op, lost), peer, h, H.Next(h, op'));
  }

  lemma PostedFlow(s: State, p: Packet, lost: bool)
    requires Fits(p.mail)
    ensures Flow(Posted(s, p, lost)) == Flow(s) + if lost then [] else [p.mail]
  {
    var s' := Posted(s, p, lost);
    OnWireIntact(p);
    if !lost {
      assert Mails(s'.socket) == Mails(s.socket) + [p.mail];
    }
  }

  lemma SendingFlow(s: State, peer: Word, op: H.Op<Packet>, lost: bool)
    requires Inv(s) && Accepted(s, op)
    ensures var s' := NextSending(s, peer, op, lost);
      Flow(s') == Flow(s) + (if lost then [] else Given(s, s', peer)) && s'.sent == s.sent + Given(s, s', peer)
  {
    var h, op' := SenderAt(s.senders, peer), Stamped(peer, op);
    GivenWhat(s, peer, op, lost);
    DeviceFine(s, peer, op');
    var s1 := s.(senders := s.senders[peer := H.Next(h, op')]);
    assert Flow(s1) == Flow(s);
    if Passes(h, op', s.here) {
      PostedFlow(s1, H.At(h, op'.tid).request, lost);
    }
  }

  lemma WorkerFlow(s: State)
    requires Inv(s)
    ensures Flow(NextWorker(s)) == Flow(s) && NextWorker(s).sent == s.sent
  {
    if s.worker.Delivering? {
      assert s.worker.mail == Flow(s)[|s.delivered|];
      Members(Flow(s), s.sent, s.worker.mail);
      DeliveringShape(s);
    } else if s.worker.Putting? {
      PuttingKeepsFlow(s);
    } else if s.worker.Leaving? {
      LeavingShape(s);
    } else {
      ReadKeepsFlow(s);
    }
  }

  lemma ReceivingFlow(s: State, b: int, t: Tid, call: bool)
    requires Inv(s)
    ensures Flow(NextReceiving(s, b, t, call)) == Flow(s) && NextReceiving(s, b, t, call).sent == s.sent
  {
    if t != WORKER && 0 <= b < s.numBoxes {
      ReceivedFits(s, b, t, call);
    }
  }

  /** A call of `Send` that fails its checks gives nothing to the device. */
  lemma RefusedGivesNothing(s: State, peer: Word, op: H.Op<Packet>, lost: bool)
    requires !Accepted(s, op)
    ensures NextSending(s, peer, op, lost) == s && Given(s, s, peer) == []
  {
    var log := SenderAt(s.senders, peer).log;
    assert log[|log|..] == [];
  }

  lemma OtherFlow(s: State, op: Op)
    requires Inv(s) && !op.Sending?
    ensures Next(s, op).sent == s.sent && Flow(Next(s, op)) == Flow(s)
  {
    match op
    case CheckPktAvail => PollKeepsFlow(s);
    case WorkerStep => WorkerFlow(s);
    case Receiving(b, t, call) => ReceivingFlow(s, b, t, call);
  }

  /** Whatever a step gives to a device is recorded as sent, and is on its way here unless it is lost;
      no other step adds to the mail or takes any away. */
  lemma FlowStep(s: State, op: Op)
    requires Inv(s)
    ensures Next(s, op).sent == s.sent + GivenIn(s, op)
    ensures Flow(Next(s, op)) == Flow(s) + if op.Sending? && op.lost then [] else GivenIn(s, op)
  {
    if !op.Sending? {
      OtherFlow(s, op);
    } else if Accepted(s, op.op) {
      SendingFlow(s, op.peer, op.op, op.lost);
    } else {
      RefusedGivesNothing(s, op.peer, op.op, op.lost);
    }
  }

  /** Over every run, what has been delivered and what is under way is, in order, exactly what the devices
      were given for this machine and the link did not lose. */
  lemma {:induction false} FlowIsCarried(here: Word, numBoxes: nat, ops: seq<Op>)
    ensures Flow(Run(Start(here, numBoxes), ops)) == Carried(here, numBoxes, ops)
  {
    if ops != [] {
      var n := |ops| - 1;
      FlowIsCarried(here, numBoxes, ops[..n]);
      RunKeepsInv(here, numBoxes, ops[..n]);
      FlowStep(Run(Start(here, numBoxes), ops[..n]), ops[n]);
    }
  }

  /** On a run without losses everything sent is delivered or under way, in the order of sending. */
  lemma {:induction false} NothingLost(here: Word, numBoxes: nat, ops: seq<Op>)
    requires forall i :: 0 <= i < |ops| && ops[i].Sending? ==> !ops[i].lost
    ensures Flow(Run(Start(here, numBoxes), ops)) == Run(Start(here, numBoxes), ops).sent
  {
    if ops != [] {
      var n := |ops| - 1;
      NothingLost(here, numBoxes, ops[..n]);
      RunKeepsInv(here, numBoxes, ops[..n]);
      FlowStep(Run(Start(here, numBoxes), ops[..n]), ops[n]);
    }
  }

  /** The link loses nothing of the peer's. */
  predicate Lossless(ops: seq<Op>, peer: int) {
    forall i :: 0 <= i < |ops| && ops[i].Sending? && ops[i].peer == peer ==> !ops[i].lost
  }

  lemma {:induction false} ByConcat(a: seq<Mail>, b: seq<Mail>, peer: int)
    ensures By(a + b, peer) == By(a, peer) + By(b, peer)
  {
    if b == [] {
      assert a + b == a;
    } else {
      var n := |b| - 1;
      ByConcat(a, b[..n], peer);
      assert a + b == (a + b[..n]) + [b[n]] && b == b[..n] + [b[n]];
      ByAppend(a + b[..n], b[n], peer);
    }
  }

  /** A step gives only mail of its own sender to the device. */
  lemma GivenOwn(s: State, op: Op, peer: int)
    requires Inv(s) && op.Sending? && op.peer != peer
    ensures By(GivenIn(s, op), peer) == []
  {
    if Accepted(s, op.op) {
      GivenWhat(s, op.peer, op.op, op.lost);
      assert SenderFine(s, op.peer);
      var h, op' := SenderAt(s.senders, op.peer), Stamped(op.peer, op.op);
      if Passes(h, op', s.here) {
        ReachesAccepted(h, op', s.sent, s.here, s.numBoxes, op.peer);
      }
    } else {
      RefusedGivesNothing(s, op.peer, op.op, op.lost);
    }
  }

  /** If the link loses nothing of a peer's, everything that the peer's device was given for this machine is
      delivered or under way. */
  lemma {:induction false} LosslessFlow(here: Word, numBoxes: nat, ops: seq<Op>, peer: int)
    requires Lossless(ops, peer)
    ensures var s := Run(Start(here, numBoxes), ops); By(Flow(s), peer) == By(s.sent, peer)
  {
    if ops != [] {
      var n := |ops| - 1;
      LosslessFlow(here, numBoxes, ops[..n], peer);
      RunKeepsInv(here, numBoxes, ops[..n]);
      var s, op := Run(Start(here, numBoxes), ops[..n]), ops[n];
      FlowStep(s, op);
      ByConcat(s.sent, GivenIn(s, op), peer);
      ByConcat(Flow(s), if op.Sending? && op.lost then [] else GivenIn(s, op), peer);
      if op.Sending? && op.peer != peer {
        GivenOwn(s, op, peer);
      }
    }
  }

  lemma {:induction false} OnlyConcat(a: seq<Mail>, b: seq<Mail>, box: int)
    ensures Only(a + b, box) == Only(a, box) + Only(b, box)
  {
    if b == [] {
      assert a + b == a;
    } else {
      var n := |b| - 1;
      OnlyConcat(a, b[..n], box);
      assert a + b == (a + b[..n]) + [b[n]] && b == b[..n] + [b[n]];
      OnlyAppend(a + b[..n], b[n], box);
    }
  }

  /** Nothing is lost but by the link: if it loses nothing of a peer's, the peer's mail that was taken from a
      box, that is in it and that is under way to it is, in this order, all the mail that the peer's device
      was given for this machine and this box. */
  lemma MailComplete(here: Word, numBoxes: nat, ops: seq<Op>, box: int, peer: int)
    requires Lossless(ops, peer)
    ensures var s := Run(Start(here, numBoxes), ops);
      By(BoxAt(s.boxes, box).removed + BoxAt(s.boxes, box).list + Only(UnderWay(s), box), peer) ==
        Only(For(SenderAt(s.senders, peer).log, here), box)
  {
    RunKeepsInv(here, numBoxes, ops);
    SameHere(here, numBoxes, ops);
    LosslessFlow(here, numBoxes, ops, peer);
    var s := Run(Start(here, numBoxes), ops);
    assert BoxOk(BoxAt(s.boxes, box), s.worker, s.delivered, box) && SenderFine(s, peer);
    OnlyConcat(s.delivered, UnderWay(s), box);
    OnlyBy(Flow(s), box, peer);
  }

  // ---------- nothing is left undone ----------

  /** Nothing but new calls of `Send` and `Receive` can change anything: not the senders' devices, not the network's
      polling, not the worker, not the receivers. */
  ghost predicate Quiet(s: State) {
    && NextPoll(s) == s && NextWorker(s) == s
    && (forall peer {:trigger SenderAt(s.senders, peer)} :: H.Quiet(SenderAt(s.senders, peer)))
    && (forall b, t :: t != WORKER ==> BoxStays(BoxAt(s.boxes, b), t))
  }

  ghost predicate BoxStays(box: Box, t: Tid) { SL.Next(box, SL.Step(t)) == box }

  lemma QuietBox(s: State, b: int)
    requires Inv(s) && Quiet(s) && BoxStays(BoxAt(s.boxes, b), WORKER)
    ensures SL.Inv(BoxAt(s.boxes, b)) && SL.Quiet(BoxAt(s.boxes, b))
  {
    var box := BoxAt(s.boxes, b);
    assert BoxOk(box, s.worker, s.delivered, b);
    forall t ensures SL.Next(box, SL.Step(t)) == box {
      assert BoxStays(box, t);
    }
  }

  /** The worker is not held up at a box. */
  lemma QuietPut(s: State, b: int)
    requires Inv(s) && Quiet(s) && !WorkerJob(s.worker, b).Idle?
    ensures !BoxStays(BoxAt(s.boxes, b), WORKER)
  {
    var box := BoxAt(s.boxes, b);
    assert BoxOk(box, s.worker, s.delivered, b);
    if BoxStays(box, WORKER) {
      QuietBox(s, b);
      SL.QuietWaitsForItems(box, WORKER);
    }
  }

  lemma WorkerMovesOn(s: State)
    requires Inv(s) && (s.worker.Woken? || s.worker.Delivering?)
    ensures NextWorker(s) != s
  {
    if s.worker.Delivering? {
      assert s.worker.mail == Flow(s)[|s.delivered|];
      Members(Flow(s), s.sent, s.worker.mail);
    }
  }

  lemma NextPutStays(s: State, b: int, op: SL.Op<Mail>)
    requires NextPut(s, b, op).boxes == s.boxes
    ensures SL.Next(BoxAt(s.boxes, b), op) == BoxAt(s.boxes, b)
  {
    assert s.boxes[b := SL.Next(BoxAt(s.boxes, b), op)][b] == s.boxes[b];
  }

  lemma QuietNotPutting(s: State)
    requires Inv(s) && Quiet(s)
    ensures !s.worker.Putting? && !s.worker.Leaving?
  {
    if s.worker.Putting? || s.worker.Leaving? {
      var b := if s.worker.Putting? then s.worker.mail.toBox else s.worker.box;
      NextPutStays(s, b, SL.Step(WORKER));
      QuietPut(s, b);
    }
  }

  /** The worker is asleep, and nothing is on the link or in the buffer. */
  lemma QuietWorker(s: State)
    requires Inv(s) && Quiet(s)
    ensures s.worker.InP? && UnderWay(s) == []
  {
    QuietNotPutting(s);
    if s.worker.Woken? || s.worker.Delivering? {
      WorkerMovesOn(s);
    }
    QuietInbox(s);
  }

  lemma QuietInbox(s: State)
    requires Handshake(s) && s.worker.InP? && NextWorker(s) == s && NextPoll(s) == s
    ensures s.inbox.None? && s.socket == []
  {
    assert WORKER in s.messageAvailable.queue;
    if s.inbox.Some? {
      var u := SomebodyAwake(s.messageAvailable);
    }
  }

  /** Whoever waits in `Receive` waits at an empty box. */
  lemma QuietReceiver(s: State, b: int, t: Tid)
    requires Inv(s) && Quiet(s)
    ensures var box := BoxAt(s.boxes, b); PlaceOf(box.mon, t).Away? || box.list == []
  {
    var box := BoxAt(s.boxes, b);
    QuietWorker(s);
    assert BoxOk(box, s.worker, s.delivered, b);
    assert PlaceIn(box.mon.at, WORKER).Away?;
    assert BoxStays(box, WORKER);
    QuietBox(s, b);
    SL.QuietWaitsForItems(box, t);
  }

  /** Over every run: if nothing but new calls of `Send` and `Receive` can change anything, then every call of `Send`
      has returned, nothing is under way, nobody waits at a box that holds mail, and whatever a peer's device was given
      for a box, if the link lost nothing of the peer's, is in the box or has been taken from it. */
  lemma EverythingArrives(here: Word, numBoxes: nat, ops: seq<Op>, b: int, t: Tid, peer: int)
    requires Quiet(Run(Start(here, numBoxes), ops))
    ensures var s := Run(Start(here, numBoxes), ops);
      && UnderWay(s) == [] && H.At(SenderAt(s.senders, peer), t).Idle?
      && (PlaceOf(BoxAt(s.boxes, b).mon, t).Away? || BoxAt(s.boxes, b).list == [])
      && (Lossless(ops, peer) ==>
            By(BoxAt(s.boxes, b).removed + BoxAt(s.boxes, b).list, peer) == Only(For(SenderAt(s.senders, peer).log, here), b))
  {
    var s := Run(Start(here, numBoxes), ops);
    RunKeepsInv(here, numBoxes, ops);
    QuietWorker(s);
    QuietReceiver(s, b, t);
    SenderInv(here, numBoxes, ops, peer);
    H.QuietIsIdle(SenderAt(s.senders, peer), t);
    if Lossless(ops, peer) {
      MailComplete(here, numBoxes, ops, b, peer);
      var box := BoxAt(s.boxes, b);
      assert box.removed + box.list + [] == box.removed + box.list;
    }
  }

  // ---------- the parts run as they do on their own ----------

  /** What an operation asks of one peer's sending side: a step of it, or a call of `Send` that passes the checks
      there, with the peer's own address filled in. */
  ghost function SendOp(numBoxes: nat, op: Op, peer: int): seq<H.Op<Packet>> {
    if !op.Sending? || op.peer != peer then []
    else if !op.op.Call? then [op.op]
    else
      var mail := op.op.request.mail;
      if |mail.data| <= MAX_MAIL_SIZE && mail.toBox < numBoxes
      then [H.Call(op.op.tid, Packet(mail.(from := op.peer), op.op.request.junk))] else []
  }

  ghost function SendOps(numBoxes: nat, ops: seq<Op>, peer: int): seq<H.Op<Packet>> {
    if ops == [] then [] else SendOps(numBoxes, ops[..|ops| - 1], peer) + SendOp(numBoxes, ops[|ops| - 1], peer)
  }

  function Handled(h: Sender, ops: seq<H.Op<Packet>>): Sender { if ops == [] then h else H.Next(h, ops[0]) }

  lemma RunHandled(ops: seq<H.Op<Packet>>, more: seq<H.Op<Packet>>)
    requires |more| <= 1
    ensures H.Run(H.Start<Packet>(), ops + more) == Handled(H.Run(H.Start<Packet>(), ops), more)
  {
    if more == [] {
      assert ops + more == ops;
    } else {
      assert (ops + more)[..|ops|] == ops;
    }
  }

  lemma SendersNext(s: State, peer: Word, op: H.Op<Packet>, lost: bool)
    ensures NextSending(s, peer, op, lost).senders ==
      if Accepted(s, op) then s.senders[peer := H.Next(SenderAt(s.senders, peer), Stamped(peer, op))] else s.senders
  {}

  lemma SenderNext(s: State, op: Op, peer: int)
    ensures SenderAt(Next(s, op).senders, peer) == Handled(SenderAt(s.senders, peer), SendOp(s.numBoxes, op, peer))
  {
    NextHere(s, op);
    if op.Sending? {
      SendersNext(s, op.peer, op.op, op.lost);
    }
  }

  /** Each peer's sending side goes through the run of a handshake. */
  lemma {:induction false} SenderIsHandshake(here: Word, numBoxes: nat, ops: seq<Op>, peer: int)
    ensures SenderAt(Run(Start(here, numBoxes), ops).senders, peer) == H.Run(H.Start<Packet>(), SendOps(numBoxes, ops, peer))
  {
    if ops != [] {
      var before, op := ops[..|ops| - 1], ops[|ops| - 1];
      SenderIsHandshake(here, numBoxes, before, peer);
      SameHere(here, numBoxes, before);
      SenderNext(Run(Start(here, numBoxes), before), op, peer);
      RunHandled(SendOps(numBoxes, before, peer), SendOp(numBoxes, op, peer));
    }
  }

  /** What an operation asks of one mail box: the worker puts mail into it, and other threads remove some. */
  ghost function BoxOp(s: State, op: Op, b: int): seq<SL.Op<Mail>> {
    match op
    case Receiving(c, t, call) =>
      if c == b && t != WORKER && 0 <= b < s.numBoxes then [if call then SL.CallRemove(t) else SL.Step(t)] else []
    case WorkerStep =>
      if s.worker.Delivering? && s.worker.mail.toBox == b && b < s.numBoxes then [SL.CallAppend(WORKER, s.worker.mail)]
      else if (s.worker.Putting? && s.worker.mail.toBox == b) || (s.worker.Leaving? && s.worker.box == b) then [SL.Step(WORKER)]
      else []
    case _ => []
  }

  ghost function BoxOps(here: Word, numBoxes: nat, ops: seq<Op>, b: int): seq<SL.Op<Mail>> {
    if ops == [] then []
    else
      var before := ops[..|ops| - 1];
      BoxOps(here, numBoxes, before, b) + BoxOp(Run(Start(here, numBoxes), before), ops[|ops| - 1], b)
  }

  function Applied(box: Box, ops: seq<SL.Op<Mail>>): Box { if ops == [] then box else SL.Next(box, ops[0]) }

  lemma PutAt(s: State, c: int, op: SL.Op<Mail>, b: int)
    ensures BoxAt(NextPut(s, c, op).boxes, b) == if b == c then SL.Next(BoxAt(s.boxes, b), op) else BoxAt(s.boxes, b)
  {}

  lemma BoxNextWorker(s: State, b: int)
    ensures BoxAt(NextWorker(s).boxes, b) == Applied(BoxAt(s.boxes, b), BoxOp(s, WorkerStep, b))
  {
    if s.worker.Delivering? {
      PutAt(s, s.worker.mail.toBox, SL.CallAppend(WORKER, s.worker.mail), b);
    } else if s.worker.Putting? {
      PutAt(s, s.worker.mail.toBox, SL.Step(WORKER), b);
    } else if s.worker.Leaving? {
      PutAt(s, s.worker.box, SL.Step(WORKER), b);
    }
  }

  lemma BoxNextReceiving(s: State, c: int, t: Tid, call: bool, b: int)
    ensures BoxAt(NextReceiving(s, c, t, call).boxes, b) == Applied(BoxAt(s.boxes, b), BoxOp(s, Receiving(c, t, call), b))
  {
    PutAt(s, c, if call then SL.CallRemove(t) else SL.Step(t), b);
  }

  lemma BoxNext(s: State, op: Op, b: int)
    ensures BoxAt(Next(s, op).boxes, b) == Applied(BoxAt(s.boxes, b), BoxOp(s, op, b))
  {
    if op.WorkerStep? {
      BoxNextWorker(s, b);
    } else if op.Receiving? {
      BoxNextReceiving(s, op.box, op.tid, op.call, b);
    }
  }

  lemma RunApplied(ops: seq<SL.Op<Mail>>, more: seq<SL.Op<Mail>>)
    requires |more| <= 1
    ensures SL.Run(SL.Start<Mail>(), ops + more) == Applied(SL.Run(SL.Start<Mail>(), ops), more)
  {
    if more == [] {
      assert ops + more == ops;
    } else {
      assert (ops + more)[..|ops|] == ops;
    }
  }

  /** Each mail box goes through the run of a synchronized list. */
  lemma {:induction false} BoxIsSynchList(here: Word, numBoxes: nat, ops: seq<Op>, b: int)
    ensures BoxAt(Run(Start(here, numBoxes), ops).boxes, b) == SL.Run(SL.Start<Mail>(), BoxOps(here, numBoxes, ops, b))
  {
    if ops != [] {
      var before, op := ops[..|ops| - 1], ops[|ops| - 1];
      var s := Run(Start(here, numBoxes), before);
      BoxIsSynchList(here, numBoxes, before, b);
      BoxNext(s, op, b);
      RunApplied(BoxOps(here, numBoxes, before, b), BoxOp(s, op, b));
    }
  }

  /** `Receive` returns one piece of mail for each call, and every call of `Send` that passes the checks is given to
      the device. */
  lemma CallsServed(here: Word, numBoxes: nat, ops: seq<Op>, b: int, peer: int, t: Tid)
    ensures var s, sends, takes :=
        Run(Start(here, numBoxes), ops), SendOps(numBoxes, ops, peer), BoxOps(here, numBoxes, ops, b);
      && H.CalledBy(sends, t) == H.GivenBy(sends, t) + H.InHand(H.At(SenderAt(s.senders, peer), t))
      && SL.RemovesCalled(takes, t) ==
           SL.TakenBy(takes, t) + if SL.JobIn(BoxAt(s.boxes, b).jobs, t).Remove? then 1 else 0
  {
    SenderIsHandshake(here, numBoxes, ops, peer);
    H.CallsReachDevice(SendOps(numBoxes, ops, peer), t);
    BoxIsSynchList(here, numBoxes, ops, b);
    SL.CallsRemove(BoxOps(here, numBoxes, ops, b), t);
  }
}
