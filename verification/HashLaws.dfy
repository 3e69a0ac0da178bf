/** Hashing and masking record the same but for digests that begin with an IBAN. */
module HashLaws {
  import opened Wrappers
  import opened Text
  import opened Detectors
  import opened Policy
  import opened Splicing
  import opened Parts
  import opened IbanCount
  import opened Pipeline
  import opened PipelineLaws
  import opened StageRuns
  import opened Pieces

  // ----- the IBANs in what a stage writes

  /** The IBANs in the stretches between secrets, after `plain`. */
  function Between(plain: string, pieces: seq<Piece>): nat
    decreases |pieces|
  {
    if pieces == [] then Count(false, plain)
    else
      match pieces[0]
      case Plain(text) => Between(plain + text, pieces[1..])
      case Secret(_, _) => Count(false, plain) + Between("", pieces[1..])
  }

  /** The secrets whose digest begins with an IBAN. */
  function Printed(p: Policy, pieces: seq<Piece>): nat {
    if pieces == [] then 0
    else
      (match pieces[0] case Plain(_) => 0 case Secret(_, secret) => PrintedIbans(p, secret)) + Printed(p, pieces[1..])
  }

  function Written(p: Policy, pieces: seq<Piece>): nat { Between("", pieces) + Printed(p, pieces) }

  lemma {:induction false} NonePrinted(p: Policy, pieces: seq<Piece>)
    ensures Printed(p, pieces) == 0 <==> forall piece | piece in pieces && piece.Secret? :: !PrintsIban(p, piece.secret)
  {
    if pieces != [] {
      NonePrinted(p, pieces[1..]);
      assert forall piece :: piece in pieces <==> piece == pieces[0] || piece in pieces[1..];
    }
  }

  lemma CountSecret(p: Policy, plain: string, kind: DetectorKind, secret: string, rest: string)
    requires !p.Keyless()
    ensures Count(false, plain + (Placeholder(p, kind, secret) + rest)) ==
            Count(false, plain) + PrintedIbans(p, secret) + Count(false, "" + rest)
  {
    ConcatThree(plain, Placeholder(p, kind, secret), rest);
    CountAcrossInserted(p, plain, kind, secret, rest);
    NothingAround(rest);
  }

  lemma {:induction false} RenderCount(p: Policy, plain: string, pieces: seq<Piece>)
    requires !p.Keyless()
    ensures Count(false, plain + Render(p, pieces)) == Between(plain, pieces) + Printed(p, pieces)
    decreases |pieces|
  {
    if pieces == [] {
      NothingAround(plain);
    } else {
      match pieces[0] {
        case Plain(text) =>
          ConcatThree(plain, text, Render(p, pieces[1..]));
          RenderCount(p, plain + text, pieces[1..]);
        case Secret(kind, secret) =>
          CountSecret(p, plain, kind, secret, Render(p, pieces[1..]));
          RenderCount(p, "", pieces[1..]);
      }
    }
  }

  /** What the IBAN stage finds in what another stage has written. */
  lemma WrittenCount(engine: Engine, stage: Stage, p: Policy, q: Policy, text: string) returns (one: Pass)
    requires !q.Keyless()
    ensures StagePass(engine, stage, q, text) == Some(one) && one.events == Finds(engine, stage, p, text)
    ensures Count(false, one.text) == Written(q, StagePieces(engine, stage, p, text))
  {
    StageShown(engine, stage, p, q, text);
    StageRecordsFinds(engine, q, stage, text);
    StageFindsTheSame(engine, stage, p, q, text);
    one := StagePass(engine, stage, q, text).value;
    var pieces := StagePieces(engine, stage, p, text);
    RenderCount(q, "", pieces);
    NothingAround(one.text);
  }

  lemma IbanStage(engine: Engine, p: Policy, ibans: Stage, text: string, n: nat) returns (pass: Pass)
    requires ibans.Ibans? && !p.Keyless() && Count(false, text) == n
    ensures StagePass(engine, ibans, p, text) == Some(pass) && pass.events == Repeat(DetectorKind.Iban, n)
  {
    IbansFound(engine, p, ibans, text);
    StageRecordsFinds(engine, p, ibans, text);
    pass := StagePass(engine, ibans, p, text).value;
  }

  // ----- texts in which one stage and the IBAN stage find something

  predicate BeforeIbans(engine: Engine, first: Stage, ibans: Stage) {
    && ibans.Ibans? && Left(Some(first)) > Left(Some(ibans))
    && Gate(first) in engine.enabled && Gate(ibans) in engine.enabled
  }

  lemma PassesThere(engine: Engine, p: Policy, q: Policy, first: Stage, ibans: Stage, text: string)
    returns (one: Pass, two: Pass)
    requires !q.Keyless() && BeforeIbans(engine, first, ibans)
    ensures StagePass(engine, first, q, text) == Some(one) && StagePass(engine, ibans, q, one.text) == Some(two)
    ensures Gate(first) in engine.enabled && Gate(ibans) in engine.enabled && Left(Some(first)) > Left(Some(ibans))
    ensures one.events == Finds(engine, first, p, text)
    ensures two.events == Repeat(DetectorKind.Iban, Written(q, StagePieces(engine, first, p, text)))
  {
    one := WrittenCount(engine, first, p, q, text);
    two := IbanStage(engine, q, ibans, one.text, Written(q, StagePieces(engine, first, p, text)));
  }

  /** What a policy that has its key records there. The pieces do not depend on the policy. */
  lemma RecordsThere(engine: Engine, p: Policy, q: Policy, first: Stage, ibans: Stage, text: string)
    returns (events: seq<DetectorKind>)
    requires !q.Keyless() && BeforeIbans(engine, first, ibans) && OnlyStagesThrough(engine, q, first, ibans, text)
    ensures RedactedStr(engine, q, text).Some? && RedactedStr(engine, q, text).value.events == events
    ensures events == Finds(engine, first, p, text)
                      + Repeat(DetectorKind.Iban, Written(q, StagePieces(engine, first, p, text)))
  {
    var one, two := PassesThere(engine, p, q, first, ibans, text);
    events := one.events + two.events;
    PipelineThrough(engine, q, first, ibans, text, one, two);
  }

  lemma {:induction false} RepeatMore(kind: DetectorKind, n: nat, more: nat)
    ensures Repeat(kind, n + more) == Repeat(kind, n) + Repeat(kind, more)
  {
    if more > 0 {
      RepeatMore(kind, n, more - 1);
      ConcatThree(Repeat(kind, n), Repeat(kind, more - 1), [kind]);
    } else {
      NothingAround(Repeat(kind, n));
    }
  }

  lemma MoreRecords(m: seq<DetectorKind>, h: seq<DetectorKind>, events: seq<DetectorKind>, kind: DetectorKind, n: nat,
                    all: nat, more: nat)
    requires m == events + Repeat(kind, n) && h == events + Repeat(kind, all) && all == n + more
    ensures h == m + Repeat(kind, more) && (h == m <==> more == 0)
  {
    RepeatMore(kind, n, more);
    ConcatThree(events, Repeat(kind, n), Repeat(kind, more));
    assert |h| == |m| + more;
  }

  lemma {:induction false} NonePrintedOutsideHash(p: Policy, pieces: seq<Piece>)
    requires !p.mode.Hash?
    ensures Printed(p, pieces) == 0
  {
    if pieces != [] {
      NonePrintedOutsideHash(p, pieces[1..]);
    }
  }

  /** Where one stage before the IBAN stage finds something, and at most these two do in what is made of the text:
      hashing records what masking records, and an IBAN for each secret whose digest begins with one. They record the
      same exactly when no digest does. */
  lemma HashRecordsIff(engine: Engine, mask: Policy, hash: Policy, first: Stage, ibans: Stage, text: string)
    requires !mask.mode.Hash? && !hash.Keyless() && BeforeIbans(engine, first, ibans)
    requires OnlyStagesThrough(engine, mask, first, ibans, text) && OnlyStagesThrough(engine, hash, first, ibans, text)
    ensures var pieces := StagePieces(engine, first, mask, text);
            var m, h := RedactedStr(engine, mask, text), RedactedStr(engine, hash, text);
            && m.Some? && h.Some?
            && h.value.events == m.value.events + Repeat(DetectorKind.Iban, Printed(hash, pieces))
            && (h.value.events == m.value.events <==>
                forall piece | piece in pieces && piece.Secret? :: !PrintsIban(hash, piece.secret))
  {
    var pieces := StagePieces(engine, first, mask, text);
    var m := RecordsThere(engine, mask, mask, first, ibans, text);
    var h := RecordsThere(engine, mask, hash, first, ibans, text);
    NonePrintedOutsideHash(mask, pieces);
    NonePrinted(hash, pieces);
    MoreRecords(m, h, Finds(engine, first, mask, text), DetectorKind.Iban, Written(mask, pieces), Written(hash, pieces),
                Printed(hash, pieces));
  }

  lemma OnlyIbanGate(stage: Stage)
    ensures Gate(stage) == DetectorKind.Iban <==> stage.Ibans?
  {
  }

  lemma NoOthersEnabled(engine: Engine, p: Policy, first: Stage, ibans: Stage, text: string)
    requires ibans.Ibans? && engine.enabled == {Gate(first), Gate(ibans)}
    requires forall stage: Stage :: Gate(stage) == Gate(first) ==> stage == first
    ensures OnlyStagesThrough(engine, p, first, ibans, text)
  {
    forall stage: Stage | Gate(stage) in engine.enabled
      ensures stage == first || stage == ibans
    {
      OnlyIbanGate(stage);
    }
    OnlyStagesEnabled(engine, p, first, ibans, text);
  }

  // ----- an address

  /** A match that is the whole text. */
  function Whole(input: string): Captures { Captures([Some(Span(0, |input|))]) }

  lemma WholeGroup(input: string)
    ensures Group(input, Whole(input), 0) == Some(input)
  {
    assert input[0..|input|] == input;
  }

  lemma OnePicked(c: Captures, decide: Captures -> Decision)
    requires c.Get(0).Some? && decide(c).Act?
    ensures Picked([c], decide, 0) == [c]
  {
    assert [c][1..] == [];
  }

  function Alone(pieces: seq<Piece>): seq<Piece> { [Plain("")] + pieces + [Plain("")] }

  lemma WholePieces(input: string, of: Captures -> seq<Piece>)
    ensures PassPieces(input, [Whole(input)], of, 0) == Alone(of(Whole(input)))
  {
    assert [Whole(input)][1..] == [];
    assert input[0..0] == "" && input[|input|..|input|] == "";
  }

  lemma WholeStagePieces(engine: Engine, stage: Stage, p: Policy, input: string)
    requires MatchesOf(engine, stage, input) == [Whole(input)] && Closure(engine, stage, p, input)(Whole(input)).Act?
    ensures StagePieces(engine, stage, p, input) == Alone(MatchPieces(stage, input, Whole(input)))
  {
    OnePicked(Whole(input), Closure(engine, stage, p, input));
    WholePieces(input, PiecesOf(stage, input));
  }

  lemma MailMatched(engine: Engine, p: Policy, mail: string) returns (mails: Stage)
    ensures Gate(mails) == Email && Left(Some(mails)) == 5
    ensures MatchesOf(engine, mails, mail) == engine.patterns.email(mail)
    ensures Closure(engine, mails, p, mail)(Whole(mail)).Act?
    ensures MatchPieces(mails, mail, Whole(mail)) == [Secret(Email, mail)]
  {
    mails := Emails;
    WholeGroup(mail);
  }

  lemma OnlySecret(p: Policy, kind: DetectorKind, secret: string)
    ensures Printed(p, Alone([Secret(kind, secret)])) == PrintedIbans(p, secret)
  {
    var all, end := Alone([Secret(kind, secret)]), [Secret(kind, secret)] + [Plain("")];
    assert all[1..] == end && end[1..] == [Plain("")];
    assert Printed(p, [Plain("")]) == 0;
    assert Printed(p, end) == PrintedIbans(p, secret);
  }

  lemma MailGate(mails: Stage)
    requires Gate(mails) == Email
    ensures forall stage: Stage :: Gate(stage) == Email ==> stage == mails
  {
  }

  lemma IbansLast(mails: Stage) returns (ibans: Stage)
    requires Left(Some(mails)) == 5
    ensures ibans.Ibans? && Left(Some(mails)) > Left(Some(ibans)) && Gate(ibans) == DetectorKind.Iban
  {
    ibans := Ibans;
  }

  /** Hashing an address records an IBAN more than masking it exactly when the digest begins with one. */
  lemma HashedMailIff(engine: Engine, mask: Policy, hash: Policy, mail: string)
    requires engine.enabled == {Email, DetectorKind.Iban} && engine.patterns.email(mail) == [Whole(mail)]
    requires !mask.mode.Hash? && !hash.Keyless()
    ensures var m, h := RedactedStr(engine, mask, mail), RedactedStr(engine, hash, mail);
            && m.Some? && h.Some?
            && h.value.events == m.value.events + Repeat(DetectorKind.Iban, PrintedIbans(hash, mail))
            && (h.value.events == m.value.events <==> !PrintsIban(hash, mail))
  {
    var mails := MailMatched(engine, mask, mail);
    var ibans := IbansLast(mails);
    MailGate(mails);
    WholeStagePieces(engine, mails, mask, mail);
    OnlySecret(hash, Email, mail);
    NonePrinted(hash, Alone([Secret(Email, mail)]));
    NoOthersEnabled(engine, mask, mails, ibans, mail);
    NoOthersEnabled(engine, hash, mails, ibans, mail);
    HashRecordsIff(engine, mask, hash, mails, ibans, mail);
  }
}
