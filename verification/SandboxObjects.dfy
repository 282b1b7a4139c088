/** The Docker objects of an Effect Sandbox: what builds them, what deletes them, and
    what a deletion that was accepted may nevertheless leave. */
module SandboxObjects {
  import opened CapturedOutput

  /** A bounded external command: an error before or during it, or its output. */
  datatype Call = CallFailed | Returned(output: Output)

  /** A Docker command is issued only while there is time left. */
  datatype DockerCall = NeverIssued | Issued(call: Call)

  predicate HasOutput(docker: DockerCall) {
    docker.Issued? && docker.call.Returned?
  }

  predicate Succeeded(docker: DockerCall) {
    HasOutput(docker) && docker.call.output.success
  }

  /** What an Effect Sandbox consists of, in the order in which it is built. */
  datatype DockerObject = InternalNetwork | ExternalNetwork | RelayContainer | SandboxContainer

  // ----- what an error text excuses

  function AsciiLower(s: string): (r: string)
    ensures |r| == |s|
    ensures forall i :: 0 <= i < |s| ==> r[i] == if 'A' <= s[i] <= 'Z' then s[i] - 'A' + 'a' else s[i]
  {
    seq(|s|, i requires 0 <= i < |s| => if 'A' <= s[i] <= 'Z' then s[i] - 'A' + 'a' else s[i])
  }

  predicate MentionsAt(text: string, phrase: string, i: nat) {
    i + |phrase| <= |text| && text[i..i + |phrase|] == phrase
  }

  predicate Mentions(text: string, phrase: string) {
    exists i: nat :: i <= |text| && MentionsAt(text, phrase, i)
  }

  /** `reports_missing`: the whole error text, in any case, mentions one of three phrases. */
  predicate ReportsMissing(stderr: string) {
    var text := AsciiLower(stderr);
    Mentions(text, "no such") || Mentions(text, "not found") || Mentions(text, "already in progress")
  }

  lemma MentionedInside(before: string, text: string, after: string, phrase: string)
    requires Mentions(AsciiLower(text), phrase)
    ensures Mentions(AsciiLower(before + text + after), phrase)
  {
    var inner, whole := AsciiLower(text), AsciiLower(before + text + after);
    var i: nat :| i <= |inner| && MentionsAt(inner, phrase, i);
    var j := |before| + i;
    assert whole[|before|..|before| + |text|] == inner;
    assert whole[j..j + |phrase|] == inner[i..i + |phrase|];
    assert MentionsAt(whole, phrase, j);
  }

  /** No further text withdraws an excuse: an error text that concerns a second name, or
      another reason, excuses the removal of the first. */
  lemma AnyTextAroundExcuses(before: string, stderr: string, after: string)
    requires ReportsMissing(stderr)
    ensures ReportsMissing(before + stderr + after)
  {
    var text := AsciiLower(stderr);
    if Mentions(text, "no such") {
      MentionedInside(before, stderr, after, "no such");
    } else if Mentions(text, "not found") {
      MentionedInside(before, stderr, after, "not found");
    } else {
      MentionedInside(before, stderr, after, "already in progress");
    }
  }

  lemma PhraseIsMentioned(before: string, phrase: string, after: string)
    requires phrase in {"no such", "not found", "already in progress"}
    ensures ReportsMissing(before + phrase + after)
  {
    assert AsciiLower(phrase) == phrase;
    assert phrase[0..|phrase|] == phrase;
    assert MentionsAt(AsciiLower(phrase), phrase, 0);
    MentionedInside(before, phrase, after, phrase);
  }

  /** The same text but for the case of ASCII letters. */
  ghost predicate SameButForCase(text: string, lower: string) {
    && |text| == |lower|
    && forall i :: 0 <= i < |text| ==>
      text[i] == lower[i] || ('a' <= lower[i] <= 'z' && text[i] as int + 32 == lower[i] as int)
  }

  /** The text contains the phrase, in any case. */
  ghost predicate Contains(text: string, phrase: string) {
    exists before, found, after :: text == before + found + after && SameButForCase(found, phrase)
  }

  lemma LowerIsSame(text: string, phrase: string)
    requires forall c :: c in phrase ==> !('A' <= c <= 'Z')
    ensures AsciiLower(text) == phrase <==> SameButForCase(text, phrase)
  {
    if AsciiLower(text) == phrase {
      forall i | 0 <= i < |text|
        ensures text[i] == phrase[i] || ('a' <= phrase[i] <= 'z' && text[i] as int + 32 == phrase[i] as int)
      {
        assert AsciiLower(text)[i] == phrase[i];
      }
    }
    if SameButForCase(text, phrase) {
      forall i | 0 <= i < |text| ensures AsciiLower(text)[i] == phrase[i] {
        assert phrase[i] in phrase;
      }
    }
  }

  lemma LowerWindow(text: string, i: nat, j: nat)
    requires i <= j <= |text|
    ensures AsciiLower(text)[i..j] == AsciiLower(text[i..j])
  {
  }

  lemma MentionedIsContained(text: string, phrase: string, i: nat)
    requires forall c :: c in phrase ==> !('A' <= c <= 'Z')
    requires i <= |text| && MentionsAt(AsciiLower(text), phrase, i)
    ensures Contains(text, phrase)
  {
    var j := i + |phrase|;
    LowerWindow(text, i, j);
    LowerIsSame(text[i..j], phrase);
    assert text == text[..i] + text[i..j] + text[j..];
  }

  lemma ContainedIsMentioned(before: string, found: string, after: string, phrase: string)
    requires forall c :: c in phrase ==> !('A' <= c <= 'Z')
    requires SameButForCase(found, phrase)
    ensures Mentions(AsciiLower(before + found + after), phrase)
  {
    var text, i, j := before + found + after, |before|, |before| + |found|;
    assert text[i..j] == found;
    LowerWindow(text, i, j);
    LowerIsSame(found, phrase);
    assert MentionsAt(AsciiLower(text), phrase, i);
  }

  lemma ContainsIsMentions(text: string, phrase: string)
    requires forall c :: c in phrase ==> !('A' <= c <= 'Z')
    ensures Mentions(AsciiLower(text), phrase) <==> Contains(text, phrase)
  {
    if i: nat :| i <= |AsciiLower(text)| && MentionsAt(AsciiLower(text), phrase, i) {
      MentionedIsContained(text, phrase, i);
    }
    if before, found, after :| text == before + found + after && SameButForCase(found, phrase) {
      ContainedIsMentioned(before, found, after, phrase);
    }
  }

  /** Exactly the texts that contain one of the three phrases excuse a removal. */
  lemma ReportsMissingExactly(stderr: string)
    ensures ReportsMissing(stderr) <==>
      Contains(stderr, "no such") || Contains(stderr, "not found") || Contains(stderr, "already in progress")
  {
    ContainsIsMentions(stderr, "no such");
    ContainsIsMentions(stderr, "not found");
    ContainsIsMentions(stderr, "already in progress");
  }

  // ----- deletion

  /** A removal gives no answer, or an exit status and an error text. Whether the object
      is then in fact gone, the runtime learns only from a success. */
  datatype Removal = NoAnswer | Answered(success: bool, stderr: string, isGone: bool)

  datatype DeletionWorld = DeletionWorld(dockerValid: bool, removal: DockerObject -> Removal)

  predicate IsAccepted(removal: Removal) {
    removal.Answered? && (removal.success || ReportsMissing(removal.stderr))
  }

  predicate IsGone(removal: Removal) {
    removal.Answered? && (removal.success || removal.isGone)
  }

  /** Accepted for its error text alone, although the object is still there. */
  predicate IsExcused(removal: Removal) {
    removal.Answered? && !removal.success && ReportsMissing(removal.stderr) && !removal.isGone
  }

  const REMOVAL_ORDER: seq<DockerObject> := [SandboxContainer, RelayContainer, InternalNetwork, ExternalNetwork]

  function Rank(o: DockerObject): nat {
    match o
    case SandboxContainer => 0
    case RelayContainer => 1
    case InternalNetwork => 2
    case ExternalNetwork => 3
  }

  ghost predicate DeletionAccepted(w: DeletionWorld) {
    w.dockerValid && forall o :: IsAccepted(w.removal(o))
  }

  /** A removal is only tried while all those before it were accepted. */
  ghost predicate IsReached(w: DeletionWorld, o: DockerObject) {
    w.dockerValid && forall p :: Rank(p) < Rank(o) ==> IsAccepted(w.removal(p))
  }

  ghost predicate Clears(w: DeletionWorld, o: DockerObject) {
    IsReached(w, o) && IsGone(w.removal(o))
  }

  /** What an accepted deletion does not clear is exactly what was excused. */
  lemma ExcusedIsExact(w: DeletionWorld, o: DockerObject)
    requires DeletionAccepted(w)
    ensures !Clears(w, o) <==> IsExcused(w.removal(o))
  {
    assert IsAccepted(w.removal(o));
  }

  lemma RankIsPosition(o: DockerObject)
    ensures Rank(o) < |REMOVAL_ORDER| && REMOVAL_ORDER[Rank(o)] == o
    ensures forall i :: 0 <= i < |REMOVAL_ORDER| && REMOVAL_ORDER[i] == o ==> i == Rank(o)
  {
  }

  ghost predicate AcceptedBelow(w: DeletionWorld, n: nat) {
    forall o :: Rank(o) < n ==> IsAccepted(w.removal(o))
  }

  ghost predicate ClearedBelow(w: DeletionWorld, before: set<DockerObject>, left: set<DockerObject>, n: nat) {
    forall o :: o in left <==> o in before && !(Rank(o) < n && IsGone(w.removal(o)))
  }

  /** Removes the objects one after the other and gives up at the first that is not accepted. */
  method DeleteSandbox(w: DeletionWorld, before: set<DockerObject>) returns (accepted: bool, left: set<DockerObject>)
    ensures accepted <==> DeletionAccepted(w)
    ensures forall o :: o in left <==> o in before && !Clears(w, o)
  {
    left := before;
    if !w.dockerValid {
      return false, left;
    }
    for i := 0 to |REMOVAL_ORDER|
      invariant AcceptedBelow(w, i) && ClearedBelow(w, before, left, i)
    {
      var o := REMOVAL_ORDER[i];
      assert Rank(o) == i && forall p :: Rank(p) == i ==> p == o by {
        forall p ensures Rank(p) == i ==> p == o { RankIsPosition(p); }
        RankIsPosition(o);
      }
      var removal := w.removal(o);
      if IsGone(removal) {
        left := left - {o};
      }
      if !IsAccepted(removal) {
        return false, left;
      }
    }
    forall o ensures Rank(o) < |REMOVAL_ORDER| { RankIsPosition(o); }
    return true, left;
  }

  // ----- egress

  /** The four commands that open egress; the last one attaches the relay and creates nothing. */
  datatype EgressWorld = EgressWorld(
    originUsable: bool, internal: DockerCall, external: DockerCall, relay: DockerCall, attach: DockerCall)

  /** Every command that opens egress succeeds. */
  predicate EgressOpens(e: EgressWorld) {
    e.originUsable && Succeeded(e.internal) && Succeeded(e.external) && Succeeded(e.relay) && Succeeded(e.attach)
  }

  /** A command was issued that creates the object, whatever it answered. */
  predicate EgressCreates(e: EgressWorld, o: DockerObject) {
    match o
    case InternalNetwork => e.originUsable && e.internal.Issued?
    case ExternalNetwork => e.originUsable && Succeeded(e.internal) && e.external.Issued?
    case RelayContainer => e.originUsable && Succeeded(e.internal) && Succeeded(e.external) && e.relay.Issued?
    case SandboxContainer => false
  }

  function Touched(docker: DockerCall, o: DockerObject): set<DockerObject> {
    if docker.Issued? then {o} else {}
  }

  /** Opens egress; an object may exist once the command that creates it is issued. */
  method OpenEgress(e: EgressWorld) returns (isOpen: bool, mayExist: set<DockerObject>)
    ensures isOpen <==> EgressOpens(e)
    ensures forall o :: o in mayExist <==> EgressCreates(e, o)
  {
    mayExist := {};
    if !e.originUsable {
      return false, mayExist;
    }
    mayExist := mayExist + Touched(e.internal, InternalNetwork);
    if !Succeeded(e.internal) {
      return false, mayExist;
    }
    mayExist := mayExist + Touched(e.external, ExternalNetwork);
    if !Succeeded(e.external) {
      return false, mayExist;
    }
    mayExist := mayExist + Touched(e.relay, RelayContainer);
    if !Succeeded(e.relay) {
      return false, mayExist;
    }
    return Succeeded(e.attach), mayExist;
  }
}
