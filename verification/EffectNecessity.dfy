/** Every answer that a credentialed effect waits for is needed: an effect that succeeds
    would not have succeeded, or not have delivered the secret, had any one been different. */
module EffectNecessity {
  import opened Prelude
  import opened CapturedOutput
  import opened SandboxObjects
  import opened CredentialEffects

  const NO_REPLY: DockerCall := Issued(CallFailed)

  /** Revocation counts only by what the second look-up says: not found, exit status 44.
      The deletion itself may exit with any status, but must have run. */
  lemma RevocationNeedsNotFound(w: RevocationWorld, find: Keychain, code: Option<int>)
    requires IsVerifiedAbsent(w)
    ensures IsVerifiedAbsent(w.(find := find)) <==> find == Exited(Some(44))
    ensures IsVerifiedAbsent(w.(delete := Exited(code))) && !IsVerifiedAbsent(w.(delete := KeychainFailed))
  {
  }

  /** No gate of a brokered effect can be left out. */
  lemma BrokeredNeedsEveryGate(w: BrokeredWorld, secret: Bytes)
    requires ReachesCurl(w)
    ensures !ReachesCurl(w.(operationMatches := false)) && !ReachesCurl(w.(brokerValid := false))
    ensures !ReachesCurl(w.(inTimeAtFirst := false)) && !ReachesCurl(w.(bindingHolds := false))
    ensures !ReachesCurl(w.(inTimeWithSecret := false)) && !ReachesCurl(w.(parametersSupported := false))
    ensures !ReachesCurl(w.(markerValid := false)) && !ReachesCurl(w.(secret := None))
    ensures ReachesCurl(w.(secret := Some(secret))) <==> IsDeliverable(secret)
  {
  }

  /** No gate before the sandbox can be left out, and the secret must be deliverable. */
  lemma OneShotNeedsEveryGate(w: OneShotWorld, secret: Bytes)
    requires OneShotDelivers(w)
    ensures !OneShotDelivers(w.(operationMatches := false)) && !OneShotDelivers(w.(brokerValid := false))
    ensures !OneShotDelivers(w.(inTimeAtFirst := false)) && !OneShotDelivers(w.(bindingHolds := false))
    ensures !OneShotDelivers(w.(exposureSupported := false)) && !OneShotDelivers(w.(inTimeToRead := false))
    ensures !OneShotDelivers(w.(inTimeWithSecret := false)) && !OneShotDelivers(w.(secret := None))
    ensures OneShotDelivers(w.(secret := Some(secret))) <==> IsDeliverable(secret)
  {
  }

  /** No step between the request and the delivery can fail or be skipped. */
  lemma DeliveryNeedsEveryStep(s: SandboxWorld, secret: Bytes, i: nat)
    requires ReachesDelivery(s, secret)
    ensures !ReachesDelivery(s.(parametersSupported := false), secret) && !ReachesDelivery(s.(nameValid := false), secret)
    ensures !ReachesDelivery(s.(egress := s.egress.(originUsable := false)), secret)
    ensures !ReachesDelivery(s.(egress := s.egress.(internal := NO_REPLY)), secret)
    ensures !ReachesDelivery(s.(egress := s.egress.(external := NO_REPLY)), secret)
    ensures !ReachesDelivery(s.(egress := s.egress.(relay := NO_REPLY)), secret)
    ensures !ReachesDelivery(s.(egress := s.egress.(attach := NO_REPLY)), secret)
    ensures !ReachesDelivery(s.(create := NO_REPLY), secret) && !ReachesDelivery(s.(inspect := NO_REPLY), secret)
    ensures !ReachesDelivery(s.(imageMatches := false), secret) && !ReachesDelivery(s.(versionMatches := false), secret)
    ensures !ReachesDelivery(s.(inTimeToDeliver := false), secret)
    ensures i < |s.preparation| ==> !ReachesDelivery(s.(preparation := s.preparation[i := NO_REPLY]), secret)
  {
    if i < |s.preparation| {
      assert s.preparation[i := NO_REPLY][i] == NO_REPLY;
    }
  }

  function WithoutRemoval(w: DeletionWorld, o: DockerObject): DeletionWorld {
    w.(removal := p => if p == o then NoAnswer else w.removal(p))
  }

  /** After delivery, success still needs the process to exit with success, logs without
      the secret, an attestation, each of the four removals and the revocation. */
  lemma SuccessNeedsEveryAnswer(w: OneShotWorld, o: DockerObject, logs: Output, find: Keychain)
    requires OneShotSucceeds(w)
    ensures var s := w.sandbox;
      && !OneShotSucceeds(w.(sandbox := s.(execution := CallFailed)))
      && !OneShotSucceeds(w.(sandbox := s.(execution := Returned(s.execution.output.(success := false)))))
      && !OneShotSucceeds(w.(sandbox := s.(leaveStarted := true)))
      && !OneShotSucceeds(w.(sandbox := s.(logs := NO_REPLY)))
      && !OneShotSucceeds(w.(sandbox := s.(attested := false)))
      && !OneShotSucceeds(w.(sandbox := s.(finalDeletion := WithoutRemoval(s.finalDeletion, o))))
    ensures !logs.success || Leaks(logs, w.secret.value) ==>
      !OneShotSucceeds(w.(sandbox := w.sandbox.(logs := Issued(Returned(logs)))))
    ensures OneShotSucceeds(w.(revocation := w.revocation.(find := find))) <==> find == Exited(Some(44))
  {
    assert !IsAccepted(WithoutRemoval(w.sandbox.finalDeletion, o).removal(o));
  }
}
