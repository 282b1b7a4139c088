/** Credentialed effects: the outcome of every combination of external answers.
    Keychain, Docker, curl, clocks and configuration checks answer through the
    `World` values; the methods take the steps of the runtime in order and report
    what they did to the outside. */
module CredentialEffects {
  import opened Prelude
  import opened CapturedOutput
  import opened SandboxObjects

  /** A Keychain command: it could not run, or it exited, possibly by signal. */
  datatype Keychain = KeychainFailed | Exited(code: Option<int>)

  datatype Receipt = Receipt(
    confirmed: bool,
    httpStatus: Option<nat>,
    returnedBytes: nat,
    leakDetected: bool,
    sandboxDestroyed: Option<bool>,
    verifiedAbsent: Option<bool>,
    externalResponse: Option<Receipt>)

  const UNKNOWN := Receipt(false, None, 0, false, None, None, None)

  datatype Outcome = Ok(receipt: Receipt) | Failed | Uncertain(receipt: Receipt) | LeaveStarted

  /** What was done to the outside world; `remaining` are the objects that may still exist. */
  datatype Deeds = Deeds(delivered: bool, remaining: set<DockerObject>, verifiedAbsent: bool)

  // ----- revocation

  datatype RevocationWorld = RevocationWorld(delete: Keychain, find: Keychain)

  /** Deleted, looked up again, and reported missing. */
  predicate IsVerifiedAbsent(w: RevocationWorld) {
    w.delete.Exited? && w.find == Exited(Some(44))
  }

  method RevokeAndVerify(w: RevocationWorld) returns (verified: bool)
    ensures verified <==> IsVerifiedAbsent(w)
  {
    if w.delete.KeychainFailed? || w.find.KeychainFailed? {
      return false;
    }
    if w.find.code == Some(0) {
      return false;
    }
    return w.find.code == Some(44);
  }

  // ----- judging a response

  predicate IsSuccessStatus(status: Option<nat>) {
    status.Some? && 200 <= status.value < 300
  }

  function ReturnedBytes(output: Output): nat {
    |output.stdout| + |output.stderr|
  }

  ghost predicate Leaks(output: Output, secret: Bytes) {
    Occurs(output.stdout, secret) || Occurs(output.stderr, secret)
  }

  /** The status after the last marker is a success. */
  ghost predicate HasSuccessStatus(output: Output, read: StatusReader) {
    exists at: nat :: IsLastOccurrence(output.stdout, MARKER, at) && IsSuccessStatus(read(output.stdout[at + |MARKER|..]))
  }

  /** A response that may be confirmed: successful, bounded and free of the secret. */
  ghost predicate IsClean(output: Output, secret: Bytes, limit: nat, read: StatusReader) {
    output.success && HasSuccessStatus(output, read) && ReturnedBytes(output) <= limit && !Leaks(output, secret)
  }

  /** The status is the one read after the last marker, and there is none without a marker. */
  ghost predicate IsStatusOf(status: Option<nat>, stdout: Bytes, read: StatusReader) {
    && (forall at: nat :: IsLastOccurrence(stdout, MARKER, at) ==> status == read(stdout[at + |MARKER|..]))
    && (status.Some? ==> exists at: nat :: IsLastOccurrence(stdout, MARKER, at))
  }

  /** The receipt says of a judged response what is true of it. */
  ghost predicate Reflects(receipt: Receipt, output: Output, leaked: bool, read: StatusReader) {
    && receipt.leakDetected == leaked
    && receipt.returnedBytes == |output.stdout| + |output.stderr|
    && IsStatusOf(receipt.httpStatus, output.stdout, read)
    && (receipt.confirmed <==> receipt.httpStatus.Some? && 200 <= receipt.httpStatus.value < 300)
  }

  /** The receipt of the response: the receipt itself, or the one that it encloses. */
  function Carried(receipt: Receipt): Receipt {
    if receipt.externalResponse.Some? then receipt.externalResponse.value else receipt
  }

  /** A run that ends Ok or Uncertain carries the receipt of this response. */
  ghost predicate Reports(outcome: Outcome, output: Output, leaked: bool, read: StatusReader) {
    (outcome.Ok? || outcome.Uncertain?) && Reflects(Carried(outcome.receipt), output, leaked, read)
  }

  method ScanOutput(output: Output, secret: Bytes) returns (leaked: bool)
    requires secret != []
    ensures leaked <==> Leaks(output, secret)
  {
    leaked := ContainsBytes(output.stdout, secret);
    if !leaked {
      leaked := ContainsBytes(output.stderr, secret);
    }
  }

  method JudgeResponse(output: Output, leaked: bool, limit: nat, read: StatusReader) returns (clean: bool, receipt: Receipt)
    ensures clean <==> output.success && HasSuccessStatus(output, read) && ReturnedBytes(output) <= limit && !leaked
    ensures Reflects(receipt, output, leaked, read)
    ensures clean ==> receipt.confirmed
    ensures receipt.sandboxDestroyed == None && receipt.verifiedAbsent == None && receipt.externalResponse == None
  {
    var status := HttpStatus(output.stdout, read);
    receipt := Receipt(IsSuccessStatus(status), status, ReturnedBytes(output), leaked, None, None, None);
    clean := !leaked && ReturnedBytes(output) <= limit && output.success && IsSuccessStatus(status);
  }

  // ----- after the execution: revoke, whatever happened

  /** How the credential's revocation settles an execution. A receipt never claims
      more than was verified. */
  method Settle(execution: Outcome, w: RevocationWorld, before: Deeds) returns (outcome: Outcome, deeds: Deeds)
    requires !before.verifiedAbsent
    ensures execution.LeaveStarted? ==> outcome == LeaveStarted && deeds == before
    ensures !execution.LeaveStarted? ==> deeds == before.(verifiedAbsent := IsVerifiedAbsent(w))
    ensures outcome.Ok? <==> execution.Ok? && IsVerifiedAbsent(w)
    ensures outcome.Ok? ==> outcome.receipt == execution.receipt.(verifiedAbsent := Some(true))
    ensures outcome.Failed? <==> execution.Failed? && IsVerifiedAbsent(w)
    ensures outcome.LeaveStarted? <==> execution.LeaveStarted?
    ensures execution.Uncertain? ==>
      outcome == Uncertain(if IsVerifiedAbsent(w) then execution.receipt.(verifiedAbsent := Some(true)) else execution.receipt)
    ensures execution.Ok? && !IsVerifiedAbsent(w) ==>
      outcome == Uncertain(UNKNOWN.(verifiedAbsent := Some(false), externalResponse := Some(execution.receipt)))
    ensures execution.Failed? && !IsVerifiedAbsent(w) ==> outcome == Uncertain(UNKNOWN.(verifiedAbsent := Some(false)))
  {
    deeds := before;
    if execution.LeaveStarted? {
      return LeaveStarted, deeds;
    }
    var revoked := RevokeAndVerify(w);
    deeds := deeds.(verifiedAbsent := revoked);
    match execution {
      case Ok(receipt) =>
        outcome := if revoked then Ok(receipt.(verifiedAbsent := Some(true)))
                   else Uncertain(UNKNOWN.(verifiedAbsent := Some(false), externalResponse := Some(receipt)));
      case Uncertain(receipt) =>
        outcome := if revoked then Uncertain(receipt.(verifiedAbsent := Some(true))) else Uncertain(receipt);
      case Failed =>
        outcome := if revoked then Failed else Uncertain(UNKNOWN.(verifiedAbsent := Some(false)));
      case LeaveStarted =>
        outcome := LeaveStarted;
    }
  }

  // ----- brokered

  /** Every answer a brokered execution may receive, in the order it asks. */
  datatype BrokeredWorld = BrokeredWorld(
    operationMatches: bool,
    brokerValid: bool,
    inTimeAtFirst: bool,
    bindingHolds: bool,
    secret: Option<Bytes>,
    inTimeWithSecret: bool,
    parametersSupported: bool,
    markerValid: bool,
    curl: Call,
    limit: nat,
    read: StatusReader,
    revocation: RevocationWorld)

  /** A bearer secret that can be delivered: printable and free of quotes and backslashes. */
  predicate IsDeliverable(secret: Bytes) {
    secret != [] && forall i :: 0 <= i < |secret| ==> 33 <= secret[i] <= 126 && secret[i] != 34 && secret[i] != 92
  }

  /** Everything that must hold before curl is given the secret. */
  predicate ReachesCurl(w: BrokeredWorld) {
    && w.operationMatches && w.brokerValid && w.inTimeAtFirst && w.bindingHolds && w.secret.Some? && w.secret.value != []
    && w.inTimeWithSecret && w.parametersSupported && IsDeliverable(w.secret.value) && w.markerValid
  }

  ghost predicate BrokeredSucceeds(w: BrokeredWorld) {
    && ReachesCurl(w) && w.curl.Returned?
    && IsClean(w.curl.output, w.secret.value, w.limit, w.read)
    && IsVerifiedAbsent(w.revocation)
  }

  method RunCurl(w: BrokeredWorld) returns (outcome: Outcome, delivered: bool)
    requires w.secret.Some?
    ensures delivered <==> w.parametersSupported && IsDeliverable(w.secret.value) && w.markerValid
    ensures outcome.Ok? <==> delivered && w.curl.Returned? && IsClean(w.curl.output, w.secret.value, w.limit, w.read)
    ensures outcome.Ok? ==> outcome.receipt.confirmed && !outcome.receipt.leakDetected && outcome.receipt.returnedBytes <= w.limit
    ensures outcome.Failed? <==> !delivered
    ensures !outcome.LeaveStarted?
    ensures outcome.Ok? || outcome.Uncertain? ==> outcome.receipt.verifiedAbsent == None && outcome.receipt.externalResponse == None
    ensures delivered && w.curl.Returned? ==>
      Reports(outcome, w.curl.output, Leaks(w.curl.output, w.secret.value), w.read)
    ensures delivered && !w.curl.Returned? ==> outcome == Uncertain(UNKNOWN)
  {
    var secret := w.secret.value;
    if !w.parametersSupported || !IsDeliverable(secret) || !w.markerValid {
      return Failed, false;
    }
    delivered := true;
    if w.curl.CallFailed? {
      return Uncertain(UNKNOWN), delivered;
    }
    var leaked := ScanOutput(w.curl.output, secret);
    var clean, receipt := JudgeResponse(w.curl.output, leaked, w.limit, w.read);
    outcome := if clean then Ok(receipt) else Uncertain(receipt);
  }

  /** Ok exactly when the response was clean and the credential is verified absent;
      Failed exactly when the secret was never delivered and revocation is
      verified; Uncertain otherwise. */
  method ExecuteBrokered(w: BrokeredWorld) returns (outcome: Outcome, deeds: Deeds)
    ensures deeds.delivered <==> ReachesCurl(w)
    ensures deeds.verifiedAbsent <==> IsVerifiedAbsent(w.revocation)
    ensures outcome.Ok? <==> BrokeredSucceeds(w)
    ensures outcome.Ok? ==>
      && outcome.receipt.confirmed && !outcome.receipt.leakDetected && outcome.receipt.returnedBytes <= w.limit
      && outcome.receipt.verifiedAbsent == Some(true)
    ensures outcome.Failed? <==> !deeds.delivered && deeds.verifiedAbsent
    ensures outcome.Uncertain? <==> !outcome.Ok? && (deeds.delivered || !deeds.verifiedAbsent)
    ensures outcome.Uncertain? ==> (outcome.receipt.verifiedAbsent == Some(true) <==> deeds.verifiedAbsent)
    ensures deeds.delivered && w.curl.Returned? ==>
      Reports(outcome, w.curl.output, Leaks(w.curl.output, w.secret.value), w.read)
  {
    var execution, delivered := Failed, false;
    if w.operationMatches && w.brokerValid && w.inTimeAtFirst && w.bindingHolds
       && w.secret.Some? && w.secret.value != [] && w.inTimeWithSecret {
      execution, delivered := RunCurl(w);
    }
    outcome, deeds := Settle(execution, w.revocation, Deeds(delivered, {}, false));
  }

  // ----- one-shot: the execution

  /** Every answer an Effect Sandbox execution may receive, in the order it asks. */
  datatype SandboxWorld = SandboxWorld(
    parametersSupported: bool,
    nameValid: bool,
    egress: EgressWorld,
    create: DockerCall,
    inspect: DockerCall,
    imageMatches: bool,
    preparation: seq<DockerCall>,
    versionMatches: bool,
    inTimeToDeliver: bool,
    execution: Call,
    leaveStarted: bool,
    logs: DockerCall,
    attested: bool,
    earlyDeletion: DeletionWorld,
    finalDeletion: DeletionWorld)

  datatype OneShotWorld = OneShotWorld(
    operationMatches: bool,
    brokerValid: bool,
    inTimeAtFirst: bool,
    bindingHolds: bool,
    exposureSupported: bool,
    inTimeToRead: bool,
    secret: Option<Bytes>,
    inTimeWithSecret: bool,
    sandbox: SandboxWorld,
    limit: nat,
    read: StatusReader,
    revocation: RevocationWorld)

  /** The sandbox is up and runs the pinned image. */
  predicate SandboxStarts(s: SandboxWorld) {
    EgressOpens(s.egress) && Succeeded(s.create) && Succeeded(s.inspect) && s.imageMatches
  }

  /** Adapter upload, permission, containment preflight and version all succeed. */
  predicate AllSucceed(calls: seq<DockerCall>) {
    forall i :: 0 <= i < |calls| ==> Succeeded(calls[i])
  }

  /** The request is one a sandbox is started for. */
  predicate IsAsked(s: SandboxWorld, secret: Bytes) {
    s.parametersSupported && IsDeliverable(secret) && s.nameValid
  }

  predicate ReachesDelivery(s: SandboxWorld, secret: Bytes) {
    && IsAsked(s, secret) && SandboxStarts(s) && AllSucceed(s.preparation) && s.versionMatches && s.inTimeToDeliver
  }

  ghost predicate SandboxRunIsClean(s: SandboxWorld, secret: Bytes, limit: nat, read: StatusReader) {
    && s.execution.Returned? && Succeeded(s.logs) && s.attested
    && IsClean(s.execution.output, secret, limit, read) && !Leaks(s.logs.call.output, secret)
  }

  /** The response and the logs are there to be judged. */
  predicate IsJudged(s: SandboxWorld) {
    s.execution.Returned? && !s.leaveStarted && HasOutput(s.logs)
  }

  /** The secret occurs in a captured stream of the response or of the logs. */
  ghost predicate LeaksAnywhere(s: SandboxWorld, secret: Bytes)
    requires IsJudged(s)
  {
    Leaks(s.execution.output, secret) || Leaks(s.logs.call.output, secret)
  }

  /** The inside of the sandbox, from upload to the final judgement. */
  method RunInSandbox(s: SandboxWorld, secret: Bytes, limit: nat, read: StatusReader)
    returns (outcome: Outcome, delivered: bool)
    requires secret != []
    ensures delivered <==> AllSucceed(s.preparation) && s.versionMatches && s.inTimeToDeliver
    ensures outcome.Failed? <==> !delivered
    ensures outcome.LeaveStarted? <==> delivered && s.execution.Returned? && s.leaveStarted
    ensures outcome.Ok? <==> delivered && !s.leaveStarted && SandboxRunIsClean(s, secret, limit, read)
    ensures outcome.Ok? ==> outcome.receipt.confirmed && !outcome.receipt.leakDetected && outcome.receipt.returnedBytes <= limit
    ensures outcome.Ok? || outcome.Uncertain? ==>
      && outcome.receipt.verifiedAbsent == None && outcome.receipt.sandboxDestroyed == None
      && outcome.receipt.externalResponse == None
    ensures delivered && IsJudged(s) ==> Reports(outcome, s.execution.output, LeaksAnywhere(s, secret), read)
    ensures delivered && !IsJudged(s) && !outcome.LeaveStarted? ==> outcome == Uncertain(UNKNOWN)
  {
    for i := 0 to |s.preparation|
      invariant AllSucceed(s.preparation[..i])
    {
      if !Succeeded(s.preparation[i]) {
        return Failed, false;
      }
    }
    assert s.preparation[..|s.preparation|] == s.preparation;
    if !s.versionMatches || !s.inTimeToDeliver {
      return Failed, false;
    }
    delivered := true;
    if s.execution.CallFailed? {
      return Uncertain(UNKNOWN), delivered;
    }
    if s.leaveStarted {
      return LeaveStarted, delivered;
    }
    if !HasOutput(s.logs) {
      return Uncertain(UNKNOWN), delivered;
    }
    var logs := s.logs.call.output;
    var leaked := ScanOutput(s.execution.output, secret);
    if !leaked {
      leaked := ScanOutput(logs, secret);
    }
    var clean, receipt := JudgeResponse(s.execution.output, leaked, limit, read);
    outcome := if clean && logs.success && s.attested then Ok(receipt) else Uncertain(receipt);
  }

  // ----- one-shot: what may remain

  /** Starting the sandbox issued a command that creates the object. */
  ghost predicate Creates(s: SandboxWorld, o: DockerObject) {
    EgressCreates(s.egress, o) || (o == SandboxContainer && EgressOpens(s.egress) && s.create.Issued?)
  }

  /** Egress opened, and then `docker run` was not issued or gave no answer, or the
      launched image could not be read: these failures return without deleting anything. */
  predicate FailsWithoutDeletion(s: SandboxWorld) {
    EgressOpens(s.egress) && (!HasOutput(s.create) || (Succeeded(s.create) && !Succeeded(s.inspect)))
  }

  predicate IsLeftStarted(s: SandboxWorld) {
    && SandboxStarts(s) && AllSucceed(s.preparation) && s.versionMatches && s.inTimeToDeliver
    && s.execution.Returned? && s.leaveStarted
  }

  /** The deletion that is made: one after a failed start, another at the end. */
  function Deletion(s: SandboxWorld): Option<DeletionWorld> {
    if FailsWithoutDeletion(s) || IsLeftStarted(s) then None
    else if SandboxStarts(s) then Some(s.finalDeletion)
    else Some(s.earlyDeletion)
  }

  /** The object may exist in the end: it may have been created and was not cleared. */
  ghost predicate MayRemain(s: SandboxWorld, o: DockerObject) {
    Creates(s, o) && (Deletion(s).Some? ==> !Clears(Deletion(s).value, o))
  }

  /** Starts the sandbox, and after most failures deletes what may exist. */
  method StartSandbox(s: SandboxWorld) returns (started: bool, mayExist: set<DockerObject>)
    ensures started <==> SandboxStarts(s)
    ensures started ==> forall o :: o in mayExist <==> Creates(s, o)
    ensures !started ==> forall o :: o in mayExist <==> MayRemain(s, o)
  {
    var isOpen, accepted;
    isOpen, mayExist := OpenEgress(s.egress);
    if !isOpen {
      accepted, mayExist := DeleteSandbox(s.earlyDeletion, mayExist);
      return false, mayExist;
    }
    if s.create.Issued? {
      mayExist := mayExist + {SandboxContainer};
    }
    if !HasOutput(s.create) {
      return false, mayExist;
    }
    if !Succeeded(s.create) {
      accepted, mayExist := DeleteSandbox(s.earlyDeletion, mayExist);
      return false, mayExist;
    }
    if !Succeeded(s.inspect) {
      return false, mayExist;
    }
    if !s.imageMatches {
      accepted, mayExist := DeleteSandbox(s.earlyDeletion, mayExist);
      return false, mayExist;
    }
    return true, mayExist;
  }

  /** A judged response is kept in the receipt exactly when the final deletion is accepted
      or the response was clean; otherwise what was found about it is dropped. */
  ghost predicate KeepsResponse(s: SandboxWorld, secret: Bytes, limit: nat, read: StatusReader) {
    IsJudged(s) && (DeletionAccepted(s.finalDeletion) || SandboxRunIsClean(s, secret, limit, read))
  }

  method RunEffectSandbox(s: SandboxWorld, secret: Bytes, limit: nat, read: StatusReader)
    returns (outcome: Outcome, delivered: bool, mayExist: set<DockerObject>)
    ensures delivered <==> ReachesDelivery(s, secret)
    ensures forall o :: o in mayExist <==> IsAsked(s, secret) && MayRemain(s, o)
    ensures outcome.Ok? <==>
      delivered && !s.leaveStarted && SandboxRunIsClean(s, secret, limit, read) && DeletionAccepted(s.finalDeletion)
    ensures outcome.Ok? ==>
      && outcome.receipt.confirmed && !outcome.receipt.leakDetected && outcome.receipt.returnedBytes <= limit
      && outcome.receipt.sandboxDestroyed == Some(true)
    ensures outcome.Failed? <==>
      !delivered && !(IsAsked(s, secret) && SandboxStarts(s) && !DeletionAccepted(s.finalDeletion))
    ensures outcome.LeaveStarted? <==> delivered && s.execution.Returned? && s.leaveStarted
    ensures outcome.Uncertain? ==> outcome.receipt.verifiedAbsent == None
    ensures outcome.Uncertain? ==> outcome.receipt.sandboxDestroyed == Some(DeletionAccepted(s.finalDeletion))
    ensures outcome.Uncertain? ==> SandboxStarts(s)
    ensures outcome.Ok? ==> outcome.receipt.externalResponse == None
    ensures delivered && KeepsResponse(s, secret, limit, read) ==>
      Reports(outcome, s.execution.output, LeaksAnywhere(s, secret), read)
    ensures delivered && !KeepsResponse(s, secret, limit, read) && !outcome.LeaveStarted? ==>
      outcome == Uncertain(UNKNOWN.(sandboxDestroyed := Some(DeletionAccepted(s.finalDeletion))))
  {
    if !s.parametersSupported || !IsDeliverable(secret) || !s.nameValid {
      return Failed, false, {};
    }
    var started;
    started, mayExist := StartSandbox(s);
    if !started {
      return Failed, false, mayExist;
    }
    outcome, delivered := RunInSandbox(s, secret, limit, read);
    if outcome.LeaveStarted? {
      return;
    }
    var accepted;
    accepted, mayExist := DeleteSandbox(s.finalDeletion, mayExist);
    if accepted {
      match outcome {
        case Ok(receipt) => outcome := Ok(receipt.(sandboxDestroyed := Some(true)));
        case Uncertain(receipt) => outcome := Uncertain(receipt.(sandboxDestroyed := Some(true)));
        case Failed =>
        case LeaveStarted =>
      }
    } else {
      var response := if outcome.Ok? then Some(outcome.receipt) else None;
      outcome := Uncertain(UNKNOWN.(sandboxDestroyed := Some(false), externalResponse := response));
    }
  }

  predicate ReachesSandbox(w: OneShotWorld) {
    && w.operationMatches && w.brokerValid && w.inTimeAtFirst && w.bindingHolds && w.exposureSupported
    && w.inTimeToRead && w.secret.Some? && w.secret.value != [] && w.inTimeWithSecret
  }

  /** A sandbox is asked for. */
  predicate ReachesStart(w: OneShotWorld) {
    ReachesSandbox(w) && IsAsked(w.sandbox, w.secret.value)
  }

  predicate OneShotDelivers(w: OneShotWorld) {
    ReachesSandbox(w) && ReachesDelivery(w.sandbox, w.secret.value)
  }

  /** A sandbox that started and whose deletion at the end was not accepted. */
  ghost predicate IsStrandedSandbox(w: OneShotWorld) {
    ReachesStart(w) && SandboxStarts(w.sandbox) && !DeletionAccepted(w.sandbox.finalDeletion)
  }

  ghost predicate OneShotSucceeds(w: OneShotWorld) {
    && OneShotDelivers(w) && !w.sandbox.leaveStarted
    && SandboxRunIsClean(w.sandbox, w.secret.value, w.limit, w.read)
    && DeletionAccepted(w.sandbox.finalDeletion) && IsVerifiedAbsent(w.revocation)
  }

  /** The receipt says that the sandbox is destroyed. */
  predicate ClaimsDestroyed(outcome: Outcome) {
    (outcome.Ok? || outcome.Uncertain?) && outcome.receipt.sandboxDestroyed == Some(true)
  }

  /** As for the broker, with the sandbox deleted before success is reported; a
      prepared sandbox that cannot be deleted makes even an undelivered effect
      Uncertain. The fault-injection switch alone yields LeaveStarted. */
  method ExecuteOneShot(w: OneShotWorld) returns (outcome: Outcome, deeds: Deeds)
    ensures deeds.delivered <==> OneShotDelivers(w)
    ensures forall o :: o in deeds.remaining <==> ReachesStart(w) && MayRemain(w.sandbox, o)
    ensures deeds.verifiedAbsent <==> !outcome.LeaveStarted? && IsVerifiedAbsent(w.revocation)
    ensures outcome.Ok? <==> OneShotSucceeds(w)
    ensures outcome.Ok? ==>
      && outcome.receipt.confirmed && !outcome.receipt.leakDetected && outcome.receipt.returnedBytes <= w.limit
      && outcome.receipt.sandboxDestroyed == Some(true) && outcome.receipt.verifiedAbsent == Some(true)
      && deeds.verifiedAbsent
    ensures outcome.Failed? <==> !deeds.delivered && deeds.verifiedAbsent && !IsStrandedSandbox(w)
    ensures outcome.LeaveStarted? <==> deeds.delivered && w.sandbox.execution.Returned? && w.sandbox.leaveStarted
    ensures outcome.Uncertain? ==> (outcome.receipt.verifiedAbsent == Some(true) <==> deeds.verifiedAbsent)
    ensures deeds.delivered && KeepsResponse(w.sandbox, w.secret.value, w.limit, w.read) ==>
      Reports(outcome, w.sandbox.execution.output, LeaksAnywhere(w.sandbox, w.secret.value), w.read)
    ensures deeds.delivered && !KeepsResponse(w.sandbox, w.secret.value, w.limit, w.read) && !outcome.LeaveStarted? ==>
      && outcome.Uncertain? && outcome.receipt.externalResponse == None
      && !outcome.receipt.leakDetected && outcome.receipt.httpStatus == None && !outcome.receipt.confirmed
    ensures ClaimsDestroyed(outcome) ==>
      && ReachesStart(w) && SandboxStarts(w.sandbox) && DeletionAccepted(w.sandbox.finalDeletion)
      && forall o :: o in deeds.remaining <==> IsExcused(w.sandbox.finalDeletion.removal(o))
  {
    var execution, delivered, mayExist := Failed, false, {};
    if w.operationMatches && w.brokerValid && w.inTimeAtFirst && w.bindingHolds && w.exposureSupported
       && w.inTimeToRead && w.secret.Some? && w.secret.value != [] && w.inTimeWithSecret {
      execution, delivered, mayExist := RunEffectSandbox(w.sandbox, w.secret.value, w.limit, w.read);
    }
    outcome, deeds := Settle(execution, w.revocation, Deeds(delivered, mayExist, false));
    if ClaimsDestroyed(outcome) {
      forall o ensures MayRemain(w.sandbox, o) <==> IsExcused(w.sandbox.finalDeletion.removal(o)) {
        ObjectsOfStartedSandbox(w.sandbox, o);
        AcceptedDeletionLeavesExactly(w.sandbox, o);
      }
    }
  }

  // ----- what "destroyed" and "failed" leave behind

  lemma ObjectsOfStartedSandbox(s: SandboxWorld, o: DockerObject)
    requires EgressOpens(s.egress) && s.create.Issued?
    ensures Creates(s, o)
  {
    match o
    case SandboxContainer =>
    case RelayContainer =>
    case InternalNetwork =>
    case ExternalNetwork =>
  }

  /** After any accepted deletion, what may remain of what was created is exactly what a
      removal was excused for by its error text although the object is still there. */
  lemma AcceptedDeletionLeavesExactly(s: SandboxWorld, o: DockerObject)
    requires Deletion(s).Some? && DeletionAccepted(Deletion(s).value)
    ensures MayRemain(s, o) <==> Creates(s, o) && IsExcused(Deletion(s).value.removal(o))
  {
    ExcusedIsExact(Deletion(s).value, o);
  }

  /** A start that fails leaves nothing behind exactly when it created nothing, or a
      deletion is made that reaches every object it created, and each is in fact gone. */
  lemma FailedStartLeavesNothingExactly(s: SandboxWorld)
    requires !SandboxStarts(s)
    ensures (forall o :: !MayRemain(s, o)) <==>
      || !EgressCreates(s.egress, InternalNetwork)
      || (!FailsWithoutDeletion(s) && forall o :: Creates(s, o) ==> IsReached(s.earlyDeletion, o) && IsGone(s.earlyDeletion.removal(o)))
  {
    var created := EgressCreates(s.egress, InternalNetwork);
    assert created <==> Creates(s, InternalNetwork);
    forall o | Creates(s, o) ensures created {
      match o
      case SandboxContainer =>
      case RelayContainer =>
      case InternalNetwork =>
      case ExternalNetwork =>
    }
    if created && (forall o :: !MayRemain(s, o)) {
      assert !MayRemain(s, InternalNetwork);
      forall o | Creates(s, o) ensures IsReached(s.earlyDeletion, o) && IsGone(s.earlyDeletion.removal(o)) {
        assert !MayRemain(s, o);
      }
    }
  }

  const SUCCESS := Issued(Returned(Output(true, [], [])))
  const OPEN_EGRESS := EgressWorld(true, SUCCESS, SUCCESS, SUCCESS, SUCCESS)
  const DONE := Answered(true, "", true)
  const CLEAN_DELETION := DeletionWorld(true, _ => DONE)
  const GONE := RevocationWorld(Exited(Some(0)), Exited(Some(44)))

  /** Answers under which every step up to the final deletion succeeds. */
  function Smooth(secret: Bytes, response: Output, limit: nat, read: StatusReader, deletion: DeletionWorld): OneShotWorld {
    OneShotWorld(true, true, true, true, true, true, Some(secret), true,
                 SandboxWorld(true, true, OPEN_EGRESS, SUCCESS, SUCCESS, true, [], true, true, Returned(response), false,
                              SUCCESS, true, CLEAN_DELETION, deletion),
                 limit, read, GONE)
  }

  /** `docker run` fails without an answer: the effect is reported as Failed, and the
      container, the relay and both networks may exist. */
  method FailedEffectCanLeaveSandbox() returns (outcome: Outcome, deeds: Deeds)
    ensures outcome.Failed? && !deeds.delivered
    ensures forall o: DockerObject :: o in deeds.remaining
  {
    var smooth := Smooth([65], Output(true, [], []), 100, _ => Some(200), CLEAN_DELETION);
    var sandbox := smooth.sandbox.(create := Issued(CallFailed));
    outcome, deeds := ExecuteOneShot(smooth.(sandbox := sandbox));
    assert FailsWithoutDeletion(sandbox) && Deletion(sandbox).None?;
    forall o: DockerObject ensures o in deeds.remaining {
      ObjectsOfStartedSandbox(sandbox, o);
    }
  }

  /** With any clean response, an effect is reported as Ok and its sandbox as destroyed
      while Docker is still removing it. */
  method SuccessCanPrecedeRemoval(response: Output, secret: Bytes, limit: nat, read: StatusReader)
    returns (outcome: Outcome, deeds: Deeds)
    requires IsDeliverable(secret) && IsClean(response, secret, limit, read)
    ensures outcome.Ok? && outcome.receipt.sandboxDestroyed == Some(true)
    ensures deeds.remaining == {SandboxContainer}
  {
    var stderr := "removal of container is " + "already in progress" + "";
    PhraseIsMentioned("removal of container is ", "already in progress", "");
    var deletion := DeletionWorld(true, o => if o == SandboxContainer then Answered(false, stderr, false) else DONE);
    outcome, deeds := ExecuteOneShot(Smooth(secret, response, limit, read, deletion));
  }

  /** When the Docker host's name stops resolving during cleanup, all four removals fail
      and are excused: the effect is reported as Ok and its sandbox as destroyed,
      although everything it consists of remains. */
  method SuccessCanLeaveEverything(response: Output, secret: Bytes, limit: nat, read: StatusReader)
    returns (outcome: Outcome, deeds: Deeds)
    requires IsDeliverable(secret) && IsClean(response, secret, limit, read)
    ensures outcome.Ok? && outcome.receipt.sandboxDestroyed == Some(true)
    ensures forall o: DockerObject :: o in deeds.remaining
  {
    var stderr := "dial tcp: lookup docker: " + "no such" + " host";
    PhraseIsMentioned("dial tcp: lookup docker: ", "no such", " host");
    var deletion := DeletionWorld(true, _ => Answered(false, stderr, false));
    outcome, deeds := ExecuteOneShot(Smooth(secret, response, limit, read, deletion));
  }

  /** A response that contains the secret, and a sandbox that cannot be deleted: the
      receipt does not mention the leak that was found. */
  method DroppedLeakGoesUnreported(response: Output, secret: Bytes, limit: nat, read: StatusReader)
    returns (outcome: Outcome, deeds: Deeds)
    requires IsDeliverable(secret) && Leaks(response, secret)
    ensures outcome.Uncertain? && deeds.delivered
    ensures !outcome.receipt.leakDetected && outcome.receipt.externalResponse == None
  {
    var deletion := DeletionWorld(false, _ => NoAnswer);
    outcome, deeds := ExecuteOneShot(Smooth(secret, response, limit, read, deletion));
  }
}
