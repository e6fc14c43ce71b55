/** The QR reception screen: one current message that scans, the Yes/No
    answer to the early-departure question and delayed resets overwrite.

    The message starts out absent, is set to the idle prompt when the
    screen mounts, and is then replaced by a scan's greeting, question or
    warning; Yes confirms an early departure, No cancels, and both
    schedule a reset to the idle prompt.  Timers are not modelled as time:
    a scheduled reset is kept in a list of pending resets until the
    environment fires it. */
module QrReception {
  import W = Wrappers

  /** The kind of a message, which decides its colour. */
  datatype MessageType = Info | Success | Warning | Error | Question

  /** The message shown in the centre of the screen. */
  datatype Message = Message(text: string, kind: MessageType, userName: string)

  /** The four demo scans the screen offers. */
  datatype Scenario = Arrival | Departure | EarlyDeparture | AlreadyDeparted

  /** The names a scan picks its user from. */
  const Users: seq<string> := ["山田太郎", "佐藤花子", "鈴木一郎", "田中美咲"]

  const IdleText := "QRコードをスキャンしてください"
  const WelcomeText := "こんにちは！"
  const GoodbyeText := "おつかれさまでした"
  const EarlyDepartureText := "契約時間に達していませんが、帰宅されますか？"
  const AlreadyDepartedText := "退所時刻が登録されています。スタッフに声をかけてください。"
  const CancelledText := "操作をキャンセルしました"

  /** The phrase Yes looks for to recognise the early-departure question. */
  const ShortOfContractPhrase := "契約時間に達していません"

  /** Delays, in milliseconds, of the resets scheduled by Yes and by No. */
  const YesResetDelay := 3000
  const NoResetDelay := 2000

  /** The idle prompt, shown on mount and after every reset. */
  const IdleMessage := Message(IdleText, Info, "")

  /** The message No shows. */
  const CancelledMessage := Message(CancelledText, Info, "")

  /** The phrase occurs in the text starting at position `i`. */
  predicate OccursAt(text: string, phrase: string, i: int) {
    0 <= i <= |text| - |phrase| && text[i..i + |phrase|] == phrase
  }

  /** `text.includes(phrase)`: the phrase occurs at some position. */
  predicate Contains(text: string, phrase: string) {
    exists i :: 0 <= i <= |text| - |phrase| && OccursAt(text, phrase, i)
  }

  /** The message a scan of the given kind shows for the given user. */
  function ScanMessage(scenario: Scenario, user: string): (m: Message)
    ensures m.userName == user
    ensures m.kind == Success <==> scenario == Arrival || scenario == Departure
    ensures m.kind == Question <==> scenario == EarlyDeparture
    ensures m.kind == Warning <==> scenario == AlreadyDeparted
  {
    match scenario
    case Arrival => Message(WelcomeText, Success, user)
    case Departure => Message(GoodbyeText, Success, user)
    case EarlyDeparture => Message(EarlyDepartureText, Question, user)
    case AlreadyDeparted => Message(AlreadyDepartedText, Warning, user)
  }

  /** The message Yes shows when the current one is the early-departure
      question: the goodbye, for the same user. */
  function ConfirmedDeparture(user: string): Message {
    Message(GoodbyeText, Success, user)
  }

  /** Which message the screen is in: the idle prompt, a scan's message
      for a user, the goodbye after a confirmed early departure, or the
      cancel notice. */
  datatype Phase = Idle | Scanned(scenario: Scenario, user: string) | Confirmed(user: string) | Cancelled

  /** A phase the screen can reach: every scan picks one of the four users. */
  predicate PhaseOk(p: Phase) {
    (p.Scanned? || p.Confirmed?) ==> p.user in Users
  }

  /** The phase of the early-departure question, the one Yes answers. */
  predicate IsQuestion(p: Phase) {
    p.Scanned? && p.scenario == EarlyDeparture
  }

  /** The message shown in a phase. */
  function Display(p: Phase): (m: Message)
    ensures m.kind == Question <==> IsQuestion(p)
    ensures (p.Scanned? || p.Confirmed?) ==> m.userName == p.user
    ensures p.Confirmed? ==> m == ScanMessage(Departure, p.user)
    ensures (p.Idle? || p.Cancelled?) ==> m.kind == Info && m.userName == ""
  {
    match p
    case Idle => IdleMessage
    case Scanned(scenario, user) => ScanMessage(scenario, user)
    case Confirmed(user) => ConfirmedDeparture(user)
    case Cancelled => CancelledMessage
  }

  /** The gray classes of the message area with no message or an `info` one. */
  const NeutralStyle := "bg-gray-50 border-gray-200 text-gray-800"

  /** The colour classes of the message area, `getMessageStyles`. */
  function MessageStyle(m: W.Option<Message>): (style: string)
    ensures style == NeutralStyle <==> m.None? || m.value.kind == Info
  {
    if m.None? then NeutralStyle
    else match m.value.kind
      case Success => "bg-green-50 border-green-200 text-green-800"
      case Warning => "bg-yellow-50 border-yellow-200 text-yellow-800"
      case Error => "bg-red-50 border-red-200 text-red-800"
      case Question => "bg-blue-50 border-blue-200 text-blue-800"
      case Info => NeutralStyle
  }

  /** The user-name heading is rendered only for a non-empty name. */
  function ShowsUserName(m: W.Option<Message>): (shown: bool)
    ensures shown ==> m.Some? && |m.value.userName| > 0
    ensures m.Some? && m.value.userName != "" ==> shown
  {
    m.Some? && m.value.userName != ""
  }

  /** Whether the Yes and No buttons are enabled. */
  function AnswerEnabled(m: W.Option<Message>): (enabled: bool)
    ensures enabled ==> m.Some? && m.value.kind == Question && MessageStyle(m) == "bg-blue-50 border-blue-200 text-blue-800"
    ensures m.Some? && m.value.kind == Question ==> enabled
  {
    m.Some? && m.value.kind == Question
  }

  class ReceptionScreen {
    /** The current message; absent until the mount effect runs. */
    var message: W.Option<Message>
    /** Delays of the resets scheduled and not yet fired. */
    var pendingResets: seq<int>
    /** The phase whose message is shown. */
    ghost var phase: Phase

    ghost predicate Valid()
      reads this
    {
      PhaseOk(phase) &&
      (message.Some? ==> message.value == Display(phase)) &&
      forall i :: 0 <= i < |pendingResets| ==> pendingResets[i] == YesResetDelay || pendingResets[i] == NoResetDelay
    }

    constructor ()
      ensures Valid()
      ensures message == W.None && pendingResets == []
    {
      message := W.None;
      pendingResets := [];
      phase := Idle;
    }

    /** The mount effect: show the idle prompt. */
    method ShowInitialMessage()
      requires Valid()
      modifies this
      ensures Valid()
      ensures message == W.Some(IdleMessage) && phase == Idle
      ensures pendingResets == old(pendingResets)
    {
      message := W.Some(IdleMessage);
      phase := Idle;
    }

    /** `simulateQrScan`: the scan's message for a user chosen from the
        four names. */
    method SimulateQrScan(scenario: Scenario)
      requires Valid()
      modifies this
      ensures Valid()
      ensures phase.Scanned? && phase.scenario == scenario && phase.user in Users
      ensures message == W.Some(ScanMessage(scenario, phase.user))
      ensures pendingResets == old(pendingResets)
    {
      var i :| 0 <= i < |Users|;
      message := W.Some(ScanMessage(scenario, Users[i]));
      phase := Scanned(scenario, Users[i]);
    }

    /** `handleYes`: with no message, nothing happens; a message holding the
        short-of-contract phrase becomes the goodbye for the same user; in
        every case with a message a reset is scheduled.  The phrase test
        singles out exactly the early-departure question. */
    method HandleYes()
      requires Valid()
      modifies this
      ensures Valid()
      ensures old(message).None? ==> message == old(message) && pendingResets == old(pendingResets) && phase == old(phase)
      ensures old(message).Some? ==>
                pendingResets == old(pendingResets) + [YesResetDelay] &&
                message == if Contains(old(message).value.text, ShortOfContractPhrase)
                           then W.Some(ConfirmedDeparture(old(message).value.userName))
                           else old(message)
      ensures old(message).Some? ==>
                phase == if IsQuestion(old(phase))
                         then Confirmed(old(phase).user)
                         else old(phase)
    {
      if message.None? {
        return;
      }
      var m := message.value;
      PhraseOnlyInQuestion(phase);
      if Contains(m.text, ShortOfContractPhrase) {
        message := W.Some(ConfirmedDeparture(m.userName));
        phase := Confirmed(phase.user);
      }
      pendingResets := pendingResets + [YesResetDelay];
    }

    /** `handleNo`: the cancel notice, and a reset scheduled. */
    method HandleNo()
      requires Valid()
      modifies this
      ensures Valid()
      ensures message == W.Some(CancelledMessage) && phase == Cancelled
      ensures pendingResets == old(pendingResets) + [NoResetDelay]
    {
      message := W.Some(CancelledMessage);
      phase := Cancelled;
      pendingResets := pendingResets + [NoResetDelay];
    }

    /** A scheduled reset fires: the idle prompt again, and that reset is no
        longer pending. */
    method FireReset(i: nat)
      requires Valid()
      requires i < |pendingResets|
      modifies this
      ensures Valid()
      ensures message == W.Some(IdleMessage) && phase == Idle
      ensures pendingResets == old(pendingResets[..i] + pendingResets[i + 1..])
    {
      message := W.Some(IdleMessage);
      phase := Idle;
      pendingResets := pendingResets[..i] + pendingResets[i + 1..];
    }
  }

  // ---------------------------------------------------------------------
  // Properties of the screen's messages.

  /** A phrase whose first character does not occur in a text is not
      contained in it. */
  lemma NotContainedWithoutFirstChar(text: string, phrase: string)
    requires |phrase| > 0 && phrase[0] !in text
    ensures !Contains(text, phrase)
  {
    forall i | 0 <= i <= |text| - |phrase|
      ensures !OccursAt(text, phrase, i)
    {
      assert text[i..i + |phrase|][0] == text[i];
    }
  }

  /** A text without the phrase's first character does not contain it. */
  lemma PhraseAbsent(text: string)
    requires '契' !in text
    ensures !Contains(text, ShortOfContractPhrase)
  {
    NotContainedWithoutFirstChar(text, ShortOfContractPhrase);
  }

  /** Of the four scans, only the early-departure one shows the phrase. */
  lemma ScanPhrase(scenario: Scenario, user: string)
    ensures Contains(ScanMessage(scenario, user).text, ShortOfContractPhrase) <==> scenario == EarlyDeparture
  {
    match scenario
    case Arrival => PhraseAbsent(WelcomeText);
    case Departure => PhraseAbsent(GoodbyeText);
    case EarlyDeparture => assert OccursAt(EarlyDepartureText, ShortOfContractPhrase, 0);
    case AlreadyDeparted => PhraseAbsent(AlreadyDepartedText);
  }

  /** Of all the texts the screen shows, only the early-departure question
      holds the short-of-contract phrase. */
  lemma PhraseOnlyInQuestion(p: Phase)
    ensures Contains(Display(p).text, ShortOfContractPhrase) <==> IsQuestion(p)
  {
    match p
    case Idle => PhraseAbsent(IdleText);
    case Scanned(scenario, user) => ScanPhrase(scenario, user);
    case Confirmed(user) => PhraseAbsent(GoodbyeText);
    case Cancelled => PhraseAbsent(CancelledText);
  }

  /** Yes and No are enabled exactly when the early-departure question of
      some user is shown, which is exactly when Yes confirms a departure. */
  lemma {:induction false} AnswerEnabledOnlyForQuestion(p: Phase)
    ensures AnswerEnabled(W.Some(Display(p))) <==> IsQuestion(p)
    ensures AnswerEnabled(W.Some(Display(p))) <==> Contains(Display(p).text, ShortOfContractPhrase)
  {
    PhraseOnlyInQuestion(p);
  }

  /** The user-name heading appears exactly for the messages of a scan or
      a confirmed departure; the idle prompt and the cancel notice carry
      no name. */
  lemma ShowsUserNameOnlyForScans(p: Phase)
    requires PhaseOk(p)
    ensures ShowsUserName(W.Some(Display(p))) <==> p.Scanned? || p.Confirmed?
  {
  }

  /** Each of success, warning, error and question has a colour of its own;
      info and no message share the gray one. */
  lemma StylesOfKinds(user: string)
    ensures var styles := [MessageStyle(W.Some(Message("", Success, user))), MessageStyle(W.Some(Message("", Warning, user))),
                           MessageStyle(W.Some(Message("", Error, user))), MessageStyle(W.Some(Message("", Question, user))),
                           MessageStyle(W.None)];
            forall i, j :: 0 <= i < j < |styles| ==> styles[i] != styles[j]
    ensures MessageStyle(W.Some(Message("", Info, user))) == MessageStyle(W.None)
  {
  }

  /** A whole early-departure exchange: scan, Yes, reset. */
  method EarlyDepartureConfirmed(screen: ReceptionScreen)
    requires screen.Valid()
    modifies screen
    ensures screen.Valid()
    ensures screen.message == W.Some(IdleMessage)
  {
    screen.SimulateQrScan(EarlyDeparture);
    var user := screen.phase.user;
    assert AnswerEnabled(screen.message);
    ScanPhrase(EarlyDeparture, user);
    screen.HandleYes();
    assert screen.message == W.Some(ConfirmedDeparture(user));
    assert screen.phase == Confirmed(user);
    screen.FireReset(|screen.pendingResets| - 1);
  }
}
