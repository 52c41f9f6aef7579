/** The channel results for the keys a code handshake gives. */
module SessionRuns {
  import opened Prelude
  import opened Sealing
  import opened Channel
  import opened ChannelRuns
  import opened Pake
  import opened PairingHost
  import opened PairingLaws

  /** Against any adversary each side of a paired session receives a prefix of what
      the other sealed, or a frame opens askew, or the two contexts collide. */
  lemma PairedReceivesPrefix(s: Suite, spakeKey: Bytes, events: seq<ChannelRuns.Event>, side: Side)
    requires Ideal(s.aead) && Feasible(s.aead, SessionKeyOf(s, spakeKey), events)
    ensures var n := Run(s.aead, SessionKeyOf(s, spakeKey), events);
            At(n, side).got <= At(n, Other(side)).sent || Crossed(s.aead, SessionKeyOf(s, spakeKey), n) || ContextsCollide(s, spakeKey)
  {
    hide SessionKeyOf, ContextsCollide;
    SessionKeysDiffer(s, spakeKey);
    if !ContextsCollide(s, spakeKey) { ReceivedIsPrefix(s.aead, SessionKeyOf(s, spakeKey), events, side); }
  }

  /** No nonce is used twice under one key in a paired session, or the two contexts
      collide. */
  lemma PairedReusesNoNonce(s: Suite, spakeKey: Bytes, events: seq<ChannelRuns.Event>)
    ensures NoReuse(Run(s.aead, SessionKeyOf(s, spakeKey), events).released) || ContextsCollide(s, spakeKey)
  {
    hide SessionKeyOf, ContextsCollide;
    SessionKeysDiffer(s, spakeKey);
    if !ContextsCollide(s, spakeKey) { NoNonceReuse(s.aead, SessionKeyOf(s, spakeKey), events); }
  }

  /** In every run of the host, the keys it opens the request and seals the accept with
      are the two directions of the handshake it proved, and differ likewise. */
  lemma HostUsesBothKeys(c: Config, events: seq<PairingHost.Event>)
    requires After(c, events).phase.AwaitsRequest?
    ensures var s := After(c, events);
            var x, sealer, opener := s.phase.session, s.phase.sealer, s.phase.opener;
            && x in s.runs
            && opener == Half(SessionKeyOf(c.suite, s.runs[x].spakeKey).initiatorToResponder, 0)
            && sealer == Half(SessionKeyOf(c.suite, s.runs[x].spakeKey).responderToInitiator, 0)
            && (sealer.key != opener.key || ContextsCollide(c.suite, s.runs[x].spakeKey))
  {
    hide SessionKeyOf, ContextsCollide, ConfirmMac;
    EveryRunKeeps(c, events);
    var s := After(c, events);
    SessionKeysDiffer(c.suite, s.runs[s.phase.session].spakeKey);
  }
}
