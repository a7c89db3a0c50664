/** What it takes for the comparison of sessions to take two for the same, attribute by attribute. */
module SessionComparison {
  import opened Options
  import opened QosRequirements
  import opened MediaComponents
  import opened ServiceInfo
  import opened ServiceAreas
  import opened SessionDiff
  import opened ListEquality
  import opened SessionCopy

  /** Attributes that are compared as they are. */
  predicate SameScalars(a: Session, b: Session) {
    && a.serviceType == b.serviceType && a.tunnelReq == b.tunnelReq && a.tmgiReq == b.tmgiReq
    && a.locationDependent == b.locationDependent && a.anyUeInd == b.anyUeInd && a.contactPcfInd == b.contactPcfInd
    && a.activityStatus == b.activityStatus && a.areaSessionId == b.areaSessionId
    && a.startTime == b.startTime && a.terminationTime == b.terminationTime
    && a.dnn == b.dnn && a.snssai == b.snssai && a.fsaIds == b.fsaIds
  }

  /** The same address of a known family. */
  predicate SameAddress(a: Option<Ssm>, b: Option<Ssm>) {
    a == b && (a.Some? ==> a.value.family != NoFamily)
  }

  /** The expiry time of a TMGI and the text of a tunnel do not count. */
  predicate SameIdentity(a: Session, b: Session) {
    && SameAddress(a.ssm, b.ssm)
    && (a.tmgi.Some? <==> b.tmgi.Some?) && (a.udpTunnel.Some? <==> b.udpTunnel.Some?)
    && (a.tmgi.Some? && b.tmgi.Some? ==> a.tmgi.value.(expiry := 0) == b.tmgi.value.(expiry := 0))
    && (a.associatedId.Some? <==> b.associatedId.Some?)
    && (a.associatedId.Some? && b.associatedId.Some? ==>
          && a.associatedId.value.text == b.associatedId.value.text
          && SameAddress(Some(a.associatedId.value.ssm), Some(b.associatedId.value.ssm)))
  }

  /** Areas list the same in any order; the cells of a tracking area do not count. */
  ghost predicate SameAreas(a: Session, b: Session) {
    && (a.serviceArea.Some? <==> b.serviceArea.Some?) && (a.extServiceArea.Some? <==> b.extServiceArea.Some?)
    && (a.serviceArea.Some? && b.serviceArea.Some? ==>
          && SameUpToOrder(a.serviceArea.value.ncgiTais, b.serviceArea.value.ncgiTais, SameNcgiTai)
          && SameUpToOrder(a.serviceArea.value.tais, b.serviceArea.value.tais, SameTai))
    && (a.extServiceArea.Some? && b.extServiceArea.Some? ==>
          SameUpToOrder(a.extServiceArea.value.civics, b.extServiceArea.value.civics, SameCivic))
  }

  /** The codecs in any order; of bit rates it counts whether they are set. */
  predicate SameMedia(a: MediaInfo, b: MediaInfo) {
    && a.mediaType == b.mediaType && (a.maxBandwidth.Some? <==> b.maxBandwidth.Some?)
    && (a.minBandwidth.Some? <==> b.minBandwidth.Some?) && multiset(Codecs(a)) == multiset(Codecs(b))
  }

  /** Of flow descriptions it counts how many there are; the id does not count. */
  predicate SameComp(a: MediaComp, b: MediaComp) {
    && a.reservePriority == b.reservePriority && a.qosRef == b.qosRef && a.qosReq == b.qosReq
    && (a.flows.Some? <==> b.flows.Some?) && (a.flows.Some? && b.flows.Some? ==> |a.flows.value| == |b.flows.value|)
    && (a.mediaInfo.Some? <==> b.mediaInfo.Some?)
    && (a.mediaInfo.Some? && b.mediaInfo.Some? ==> SameMedia(a.mediaInfo.value, b.mediaInfo.value))
  }

  /** The same keys, and the components alike. */
  predicate SameInfo(a: Info, b: Info) {
    && a.reservePriority == b.reservePriority && a.afAppId == b.afAppId && a.ambr == b.ambr
    && (a.comps.Some? <==> b.comps.Some?)
    && (a.comps.Some? && b.comps.Some? ==>
          && a.comps.value.Keys == b.comps.value.Keys
          && forall k :: k in a.comps.value ==> SameComp(a.comps.value[k], b.comps.value[k]))
  }

  lemma CompEqualMeans(a: MediaComp, b: MediaComp)
    ensures CompEqual(a, b) <==> SameComp(a, b)
  {
    if a.mediaInfo.Some? && b.mediaInfo.Some? {
      MediaInfoEqualMeans(a.mediaInfo.value, b.mediaInfo.value);
    }
  }

  lemma InfoEqualMeans(a: Info, b: Info)
    ensures InfoEqual(Some(a), Some(b)) <==> SameInfo(a, b)
  {
    if a.comps.Some? && b.comps.Some? {
      CompsEqualMeans(a.comps.value, b.comps.value);
      forall k | k in a.comps.value && k in b.comps.value
        ensures CompEqual(a.comps.value[k], b.comps.value[k]) <==> SameComp(a.comps.value[k], b.comps.value[k])
      {
        CompEqualMeans(a.comps.value[k], b.comps.value[k]);
      }
    }
  }

  lemma AreasEqualMean(a: Session, b: Session)
    ensures AreaEqual(a.serviceArea, b.serviceArea) && ExtEqual(a.extServiceArea, b.extServiceArea) <==> SameAreas(a, b)
  {
    SameRelations();
    if a.serviceArea.Some? && b.serviceArea.Some? {
      AreaEqualMeans(a.serviceArea.value, b.serviceArea.value);
    }
    if a.extServiceArea.Some? && b.extServiceArea.Some? {
      GreedyDecides(a.extServiceArea.value.civics, b.extServiceArea.value.civics, SameCivic);
    }
  }

  /** Two sessions are taken for the same if and only if they agree in all of these. */
  lemma SessionEqualMeans(a: Session, b: Session)
    ensures SessionEqual(a, b) <==>
            && SameScalars(a, b) && SameIdentity(a, b) && SameAreas(a, b)
            && (a.serviceInfo.Some? <==> b.serviceInfo.Some?)
            && (a.serviceInfo.Some? && b.serviceInfo.Some? ==> SameInfo(a.serviceInfo.value, b.serviceInfo.value))
  {
    AreasEqualMean(a, b);
    if a.serviceInfo.Some? && b.serviceInfo.Some? {
      InfoEqualMeans(a.serviceInfo.value, b.serviceInfo.value);
    }
  }
}
