/** What the reply to a creation gives the session: its TMGI, its tunnel and its address. */
module CreateReply {
  import opened Options
  import opened ServiceAreas
  import opened SessionDiff
  import opened SessionCopy
  import opened Subscriptions
  import opened Reconciler
  import opened Reconciliation
  import Sequences

  // ---------- The tunnel ----------

  /** An address is written with its IPv4 form if it has one, else with its IPv6 form, and one with neither is left out. */
  function Written(a: TunnelAddress): string {
    match (a.ipv4, a.ipv6)
    case (Some(text), _) => text + ";"
    case (None, Some(text)) => text + ";"
    case _ => ""
  }

  /** The texts of the addresses in list order: address i comes after those before it and before those after it. */
  lemma {:induction false} TunnelAt(addresses: seq<TunnelAddress>, i: nat)
    requires i < |addresses|
    ensures TunnelText(addresses) == TunnelText(addresses[..i]) + Written(addresses[i]) + TunnelText(addresses[i + 1..])
  {
    if i == 0 {
      assert addresses[..0] == [];
    } else {
      var first, rest := addresses[0], addresses[1..];
      TunnelAt(rest, i - 1);
      assert rest[..i - 1] == addresses[..i][1..] && rest[i..] == addresses[i + 1..];
      Sequences.Regroup(Written(first), TunnelText(rest[..i - 1]), Written(addresses[i]));
      Sequences.Regroup(Written(first), TunnelText(rest[..i - 1]) + Written(addresses[i]), TunnelText(rest[i..]));
    }
  }

  lemma {:induction false} NoTunnel(addresses: seq<TunnelAddress>)
    ensures TunnelText(addresses) == "" <==> forall a :: a in addresses ==> a.ipv4.None? && a.ipv6.None?
  {
    if addresses != [] {
      NoTunnel(addresses[1..]);
      assert addresses == [addresses[0]] + addresses[1..];
    }
  }

  /** The tunnel of a session is what is written of the addresses of the list, if anything is. */
  predicate IsTunnel(tunnel: Option<string>, addresses: seq<TunnelAddress>) {
    && (tunnel.None? <==> forall a :: a in addresses ==> a.ipv4.None? && a.ipv6.None?)
    && (tunnel.Some? ==>
          && tunnel.value == TunnelText(addresses)
          && forall i :: 0 <= i < |addresses| ==>
               tunnel.value == TunnelText(addresses[..i]) + Written(addresses[i]) + TunnelText(addresses[i + 1..]))
  }

  lemma TunnelOfIs(addresses: seq<TunnelAddress>)
    ensures IsTunnel(TunnelOf(addresses), addresses)
  {
    NoTunnel(addresses);
    forall i | 0 <= i < |addresses|
      ensures TunnelText(addresses) == TunnelText(addresses[..i]) + Written(addresses[i]) + TunnelText(addresses[i + 1..])
    {
      TunnelAt(addresses, i);
    }
  }

  // ---------- The address ----------

  predicate OneFamily(r: ReplySession, family: AddressFamily) {
    BothAddresses(r) &&
    var s, d := r.ssm.value.source.value, r.ssm.value.dest.value;
    match family
    case IPv4 => s.ipv4.Some? && d.ipv4.Some?
    case IPv6 => s.ipv6.Some? && d.ipv6.Some? && (s.ipv4.None? || d.ipv4.None?)
    case NoFamily => false
  }

  /** The addresses of the answer: its source is the source, and its destination is the destination. */
  predicate HasAddress(x: Session, r: ReplySession, family: AddressFamily)
    requires OneFamily(r, family)
  {
    var s, d := r.ssm.value.source.value, r.ssm.value.dest.value;
    && x.ssm.Some? && x.ssm.value.family == family
    && Some(x.ssm.value.source) == (if family.IPv4? then s.ipv4 else s.ipv6)
    && Some(x.ssm.value.dest) == (if family.IPv4? then d.ipv4 else d.ipv6)
  }

  // ---------- The reply ----------

  /** The allocated TMGI: the service id, the network and the expiry time of the reply. */
  predicate HasTmgi(x: Session, r: ReplySession) {
    && r.tmgi.Some? && r.expiry.Some? && r.expiry.value.GoodTime?
    && x.tmgi.Some? && x.tmgi.value.serviceId == Some(r.tmgi.value.0) && x.tmgi.value.plmn == r.tmgi.value.1
    && x.tmgi.value.expiry == r.expiry.value.seconds
  }

  /** What x, made of the old session by the reply, has from which of them. */
  predicate Takes(x: Session, was: Session, r: ReplySession) {
    && (if was.tmgiReq then HasTmgi(x, r) else x.tmgi == was.tmgi)
    && (if was.tunnelReq then r.tunnels.Some? && IsTunnel(x.udpTunnel, r.tunnels.value) else x.udpTunnel == was.udpTunnel)
    && (forall family :: OneFamily(r, family) ==> HasAddress(x, r, family))
    && (!BothAddresses(r) ==> x.ssm == was.ssm)
    && (NoFamilyAnswer(r) ==> x.ssm == if was.ssm.Some? then was.ssm else Some(Ssm(NoFamily, 0, 0)))
  }

  /**
   After an accepted reply both the session and the accepted copy have what the reply allocated: the TMGI and the tunnel,
   where they were requested, and the address. Where nothing was requested or answered the old attributes stay.
   */
  lemma AcceptedTakes(l: Local, r: Reply)
    requires Accepted(l.session, r)
    ensures var read, reply := ReadReply(l, r), r.body.value.value;
      && read.id == Some(r.location.id) && read.subs == l.subs && read.previous.Some?
      && Takes(read.session, l.session, reply) && Takes(read.previous.value, l.session, reply)
      && read.session == l.session.(udpTunnel := read.session.udpTunnel, tmgi := read.session.tmgi, ssm := read.session.ssm)
  {
    var reply := r.body.value.value;
    AcceptedReply(l, r);
    if l.session.tunnelReq {
      TunnelOfIs(reply.tunnels.value);
    }
    ReplyTakes(l.session, reply);
    CopyTakes(l.previous, WithReply(l.session, reply), l.session, reply);
  }

  lemma ReplyTakes(x: Session, r: ReplySession)
    requires !LacksTunnel(x, r) && !LacksTmgi(x, r)
    requires x.tunnelReq ==> IsTunnel(TunnelOf(r.tunnels.value), r.tunnels.value)
    ensures Takes(WithReply(x, r), x, r)
  {
  }

  lemma CopyTakes(dst: Option<Session>, x: Session, was: Session, r: ReplySession)
    requires Takes(x, was, r)
    ensures Takes(PublicCopy(dst, x), was, r)
  {
  }

  /** The reply can be read as far as the tunnel, and there is one to be read. */
  predicate BringsTunnel(x: Session, r: Reply) {
    r.location.Resource? && r.body.Some? && r.body.value.Some? && x.tunnelReq && r.body.value.value.tunnels.Some?
  }

  /**
   A reply that is of no use leaves the accepted copy, the TMGI and the address alone; but the id is taken from its
   location, if that names a resource, and the tunnel, if it was requested and is answered.
   */
  lemma UnusableLeaves(l: Local, r: Reply)
    requires !Accepted(l.session, r)
    ensures var read := ReadReply(l, r);
      && read.previous == l.previous && read.subs == l.subs
      && read.id == (if r.location.Resource? then Some(r.location.id) else l.id)
      && read.session == l.session.(udpTunnel := read.session.udpTunnel)
      && (if BringsTunnel(l.session, r) then IsTunnel(read.session.udpTunnel, r.body.value.value.tunnels.value)
          else read.session.udpTunnel == l.session.udpTunnel)
  {
    if BringsTunnel(l.session, r) {
      TunnelOfIs(r.body.value.value.tunnels.value);
    }
  }
}
