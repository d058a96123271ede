/**
 * The upload page against the host: the page's requests travel and are handled in any order, while other
 * devices and the application use the same host.
 */
module PageHost {
  import S = UploadSlot
  import H = UploadHost
  import R = UploadHostRuns
  import P = UploadPage
  import E = UploadPageRuns

  type SessionId = nat
  type FileId = nat

  /** A session the host opened for a batch of the page. */
  datatype Offer = Offer(batch: seq<FileId>, tokens: map<FileId, nat>)

  datatype Joint = Joint(
    page: P.Page,
    host: H.State,
    handled: set<nat>,                            // positions in `page.requests` that reached their handler
    offers: map<SessionId, Offer>,                // history
    answered: set<SessionId>)                     // history: offers whose answer reached the page

  const START := Joint(P.START, H.START, {}, map[], {})

  datatype Step =
    | HostStep(action: H.Action)                                                 // anybody else, or a handler going on
    | OpenSession(request: H.RequestId, batch: seq<FileId>, tokens: map<FileId, nat>, now: nat)
    | TellPage(id: SessionId)                                                    // status 200 with the tokens
    | PageStep(event: E.Event)                                                   // any other event of the page
    | HandlePost(at: nat, upload: H.UploadId, now: nat)
    | HandleCancel(at: nat)

  predicate InFlight(j: Joint, at: nat)
  {
    at < |j.page.requests| && at !in j.handled
  }

  function PostAction(request: P.Request, upload: H.UploadId, ip: S.Ip, now: nat): H.Action
    requires request.Post?
  {
    H.BeginUpload(upload, request.session, request.item, request.token, ip, now)
  }

  /** `ip` is the address of the page's device. */
  predicate Enabled(j: Joint, ip: S.Ip, step: Step)
  {
    match step
    case HostStep(a) => H.Enabled(j.host, a)
    case OpenSession(r, batch, tokens, now) =>
      && H.Enabled(j.host, H.Activate(r, ip, tokens, now))
      && P.Prepare(batch) in j.page.requests && (forall f <- tokens :: f in batch)
    case TellPage(id) =>
      id in j.offers && id !in j.answered && j.page.work == P.Deciding(j.offers[id].batch)
    case PageStep(e) => E.Enabled(j.page, e) && !(e.HostAnswered? && e.answer.Accepted?)
    case HandlePost(at, u, now) => InFlight(j, at) && j.page.requests[at].Post? && u !in j.host.uploads
    case HandleCancel(at) => InFlight(j, at) && j.page.requests[at].CancelSession?
  }

  function Next(j: Joint, ip: S.Ip, step: Step): Joint
    requires Enabled(j, ip, step)
  {
    match step
    case HostStep(a) => j.(host := H.Next(j.host, a))
    case OpenSession(r, batch, tokens, now) =>
      j.(host := H.Next(j.host, H.Activate(r, ip, tokens, now)),
         offers := j.offers[j.host.requests[r].id := Offer(batch, tokens)])
    case TellPage(id) =>
      j.(page := P.Answered(j.page, P.Accepted(id, j.offers[id].tokens)), answered := j.answered + {id})
    case PageStep(e) => j.(page := E.Handled(j.page, e))
    case HandlePost(at, u, now) =>
      var a := PostAction(j.page.requests[at], u, ip, now);
      j.(host := if H.Enabled(j.host, a) then H.Next(j.host, a) else j.host, handled := j.handled + {at})
    case HandleCancel(at) =>
      j.(host := H.Next(j.host, H.Cancel(j.page.requests[at].session, ip)), handled := j.handled + {at})
  }

  // ---- How the page leaves a position of its batch ----

  /** The requests and the work of `q` are those of a batch taken up at `index` after the requests `before`. */
  ghost predicate TookUp(
    before: seq<P.Request>, q: P.Page, id: SessionId, tokens: map<FileId, nat>, batch: seq<FileId>, index: nat,
    skipped: bool)
  {
    && before <= q.requests
    && (forall i :: |before| <= i < |q.requests| ==> match q.requests[i]
          case Prepare(_) => true
          case CancelSession(s) => s == id
          case Post(s, f, token) => s == id && f in tokens && token == tokens[f])
    && if q.work.Sending? then
         var w := q.work;
         && w.session == id && w.tokens == tokens && w.batch == batch && index <= w.index < |batch|
         && batch[w.index] in tokens
         && (w.skippedAny || (!skipped && w.index == index))
         && |before| < |q.requests| && q.requests[|before|] == P.Post(id, batch[w.index], tokens[batch[w.index]])
       else
         skipped || index < |batch| ==> |before| < |q.requests| && q.requests[|before|] == P.CancelSession(id)
  }

  lemma {:induction false} AdvancedTookUp(
    p: P.Page, id: SessionId, tokens: map<FileId, nat>, batch: seq<FileId>, index: nat, skipped: bool)
    ensures TookUp(p.requests, P.Advanced(p, id, tokens, batch, index, skipped), id, tokens, batch, index, skipped)
    decreases |batch| - index
  {
    if index >= |batch| {
    } else if P.StatusOf(p.items, batch[index]).Cancelled? {
      AdvancedTookUp(p, id, tokens, batch, index + 1, true);
    } else if batch[index] !in tokens {
      AdvancedTookUp(p.(items := P.WithStatus(p.items, batch[index], P.Failed)), id, tokens, batch, index + 1, true);
    }
  }

  /** The batch of `p` goes on behind its current item. */
  ghost predicate WentOn(p: P.Page, q: P.Page)
  {
    && p.work.Sending?
    && TookUp(p.requests, q, p.work.session, p.work.tokens, p.work.batch, p.work.index + 1, p.work.skippedAny)
  }

  /** The step touches no running batch and posts nothing. */
  ghost predicate LeftAlone(p: P.Page, q: P.Page)
  {
    && (if p.work.Sending? then q.work == p.work else !q.work.Sending?)
    && p.requests <= q.requests
    && forall i :: |p.requests| <= i < |q.requests| ==> q.requests[i].Prepare?
  }

  lemma UploadEndedWentOn(p: P.Page, status: P.Status)
    requires p.work.Sending? && p.work.index < |p.work.batch|
    ensures WentOn(p, P.UploadEnded(p, status))
  {
    var w := p.work;
    var r := p.(items := P.WithStatus(p.items, w.batch[w.index], status));
    AdvancedTookUp(r, w.session, w.tokens, w.batch, w.index + 1, w.skippedAny);
  }

  lemma CancelledAllWentOn(p: P.Page)
    requires E.Inv(p)
    ensures var q := P.CancelledAll(p);
            if p.work.Sending? then WentOn(p, q) else LeftAlone(p, q)
  {
    var q := p.(items := P.Marked(p.items, p.uploads, P.ToCancelled));
    assert E.ListOk(q) && E.WorkOk(q) && E.NonePending(q);
    if p.work.Sending? {
      assert q.items[p.work.batch[p.work.index]].status.Uploading?;
      E.OneToCancel(q, q.uploads);
      UploadEndedWentOn(q, P.Cancelled);
    } else {
      E.NoneToCancel(q, q.uploads);
    }
  }

  lemma {:induction false} AddedFilesLeftAlone(p: P.Page, files: seq<(FileId, bool)>)
    ensures var q := P.AddedFiles(p, files);
            q.work == p.work && q.requests == p.requests && q.pumping == p.pumping
    decreases |files|
  {
    if files != [] {
      AddedFilesLeftAlone(P.AddedFile(p, files[0].0, files[0].1), files[1..]);
    }
  }

  lemma ClickedLeavesOrGoesOn(p: P.Page, id: FileId)
    requires E.Inv(p)
    ensures var q := P.Clicked(p, id);
            WentOn(p, q) || LeftAlone(p, q)
  {
    if p.work.Sending? && p.work.index < |p.work.batch| {
      UploadEndedWentOn(p, P.Cancelled);
    }
  }

  lemma PageStepOutcome(p: P.Page, e: E.Event)
    requires E.Inv(p) && E.Enabled(p, e) && !(e.HostAnswered? && e.answer.Accepted?)
    ensures WentOn(p, E.Handled(p, e)) || LeftAlone(p, E.Handled(p, e))
  {
    match e
    case FilesAdded(files) => AddedFilesLeftAlone(p, files);
    case HostAnswered(answer) =>
    case TimerFired =>
    case UploadLoaded(ok) => UploadEndedWentOn(p, if ok then P.Done else P.Failed);
    case RowClicked(id) => ClickedLeavesOrGoesOn(p, id);
    case AllCancelled => CancelledAllWentOn(p);
  }

  // ---- Invariant ----

  ghost predicate RequestsMatch(requests: seq<P.Request>, offers: map<SessionId, Offer>)
  {
    forall i :: 0 <= i < |requests| ==> match requests[i]
      case Prepare(_) => true
      case CancelSession(s) => s in offers
      case Post(s, f, token) => s in offers && f in offers[s].tokens && token == offers[s].tokens[f]
  }

  ghost predicate PageSide(j: Joint)
  {
    && E.Inv(j.page)
    && j.answered <= j.offers.Keys
    && (forall at <- j.handled :: at < |j.page.requests|)
    && RequestsMatch(j.page.requests, j.offers)
    && (j.page.work.Sending? ==>
          var w := j.page.work;
          w.session in j.answered && w.tokens == j.offers[w.session].tokens && w.batch == j.offers[w.session].batch)
    && (forall s <- j.offers :: forall f <- j.offers[s].tokens :: f in j.offers[s].batch)
  }

  predicate Matches(session: S.Session, offer: Offer, ip: S.Ip)
  {
    && session.senderIp == ip && session.files.Keys == offer.tokens.Keys
    && forall f <- session.files :: session.files[f].token == offer.tokens[f]
  }

  ghost predicate HostSide(host: H.State, offers: map<SessionId, Offer>, ip: S.Ip)
  {
    && H.Inv(host)
    && (forall s <- offers :: H.Known(host, s).Some?)
    && (forall s <- offers :: host.slot.Holds(s) ==> Matches(host.slot.session, offers[s], ip))
  }

  /** The host waits for the file. */
  predicate Awaited(host: H.State, s: SessionId, f: FileId)
  {
    host.slot.Holds(s) && f in host.slot.session.files && host.slot.session.files[f].status.Pending?
  }

  ghost predicate Posted(j: Joint, s: SessionId, f: FileId)
  {
    exists at: nat :: InFlight(j, at) && j.page.requests[at].Post?
                 && j.page.requests[at].session == s && j.page.requests[at].item == f
  }

  ghost predicate GivenBack(j: Joint, s: SessionId)
  {
    exists at: nat :: InFlight(j, at) && j.page.requests[at] == P.CancelSession(s)
  }

  ghost predicate Covered(j: Joint, s: SessionId, f: FileId)
  {
    Awaited(j.host, s, f) ==> Posted(j, s, f)
  }

  predicate Running(p: P.Page, s: SessionId)
  {
    p.work.Sending? && p.work.session == s
  }

  predicate Ahead(batch: seq<FileId>, index: nat, f: FileId)
  {
    exists k :: index <= k < |batch| && batch[k] == f
  }

  /** Every file the host waits for is still ahead in the batch or on its way, or the session is given back. */
  ghost predicate BatchCovered(j: Joint, s: SessionId)
    requires s in j.offers
  {
    var tokens := j.offers[s].tokens;
    if Running(j.page, s) then
      var w := j.page.work;
      w.skippedAny || forall f <- tokens :: Ahead(w.batch, w.index + 1, f) || Covered(j, s, f)
    else
      GivenBack(j, s) || !j.host.slot.Holds(s) || forall f <- tokens :: Covered(j, s, f)
  }

  ghost predicate Inv(j: Joint, ip: S.Ip)
  {
    && PageSide(j) && HostSide(j.host, j.offers, ip)
    && forall s <- j.answered :: BatchCovered(j, s)
  }

  // ---- Steps of the host ----

  /** Once known, a session is never activated again, and its files do not become pending again. */
  lemma NeverAwaitedAgain(h: H.State, a: H.Action, s: SessionId)
    requires H.Inv(h) && H.Enabled(h, a) && H.Known(h, s).Some?
    ensures var t := H.Next(h, a);
            && H.Known(t, s).Some?
            && (t.slot.Holds(s) ==> h.slot.Holds(s) && R.FilesMove(h.slot.session, t.slot.session))
            && (forall f :: Awaited(t, s, f) ==> Awaited(h, s, f))
  {
    R.FilesMoveStep(h, a, s);
    H.InvStep(h, a);
    if s in h.closed {
      R.ClosedStays(h, a, s);
    }
    hide H.Next, H.Enabled;
  }

  lemma HostSideStep(h: H.State, offers: map<SessionId, Offer>, ip: S.Ip, a: H.Action)
    requires HostSide(h, offers, ip) && H.Enabled(h, a)
    ensures HostSide(H.Next(h, a), offers, ip)
  {
    H.InvStep(h, a);
    hide H.Next, H.Enabled, H.Inv, H.Known;
    forall s <- offers
      ensures H.Known(H.Next(h, a), s).Some?
      ensures H.Next(h, a).slot.Holds(s) ==> Matches(H.Next(h, a).slot.session, offers[s], ip)
    {
      NeverAwaitedAgain(h, a, s);
    }
  }

  lemma CoveredByHostStep(j: Joint, k: Joint, ip: S.Ip, a: H.Action, s: SessionId)
    requires Inv(j, ip) && H.Enabled(j.host, a) && s in j.answered
    requires k == j.(host := H.Next(j.host, a), offers := k.offers) && s in k.offers && k.offers[s] == j.offers[s]
    ensures BatchCovered(k, s)
  {
    NeverAwaitedAgain(j.host, a, s);
    hide H.Next, H.Enabled, H.Inv, H.Known, E.Inv, RequestsMatch;
    assert forall f :: Posted(j, s, f) ==> Posted(k, s, f);
    assert GivenBack(j, s) ==> GivenBack(k, s);
  }

  /** The session of a pending request has no offer yet. */
  lemma OfferIsNew(j: Joint, ip: S.Ip, r: H.RequestId)
    requires HostSide(j.host, j.offers, ip) && r in j.host.requests && j.host.requests[r].Deciding?
    ensures j.host.requests[r].id !in j.offers
  {
    assert j.host.requests[r].HasId();
    assert H.Known(j.host, j.host.requests[r].id).None?;
  }

  lemma OpenedMatches(h: H.State, r: H.RequestId, tokens: map<FileId, nat>, ip: S.Ip, now: nat)
    requires H.Enabled(h, H.Activate(r, ip, tokens, now))
    ensures var t := H.Next(h, H.Activate(r, ip, tokens, now));
            var id := h.requests[r].id;
            t.slot.Holds(id) && H.Known(t, id).Some? && Matches(t.slot.session, Offer([], tokens), ip)
  {
  }

  lemma OpenSessionStep(j: Joint, ip: S.Ip, r: H.RequestId, batch: seq<FileId>, tokens: map<FileId, nat>, now: nat)
    requires Inv(j, ip) && Enabled(j, ip, OpenSession(r, batch, tokens, now))
    ensures Inv(Next(j, ip, OpenSession(r, batch, tokens, now)), ip)
  {
    var a := H.Activate(r, ip, tokens, now);
    var k := Next(j, ip, OpenSession(r, batch, tokens, now));
    OfferIsNew(j, ip, r);
    OpenedMatches(j.host, r, tokens, ip, now);
    HostSideStep(j.host, j.offers, ip, a);
    forall s <- k.answered ensures BatchCovered(k, s) {
      CoveredByHostStep(j, k, ip, a, s);
    }
    hide H.Next, H.Enabled, H.Inv, H.Known, E.Inv, BatchCovered, Matches;
    assert Matches(k.host.slot.session, k.offers[j.host.requests[r].id], ip) by {
      SameTokens(k.host.slot.session, tokens, batch, ip);
    }
    assert PageSide(k) by {
      hide HostSide;
      MoreOffers(j.page.requests, j.offers, k.offers);
      hide RequestsMatch;
    }
    hide PageSide;
  }

  lemma SameTokens(session: S.Session, tokens: map<FileId, nat>, batch: seq<FileId>, ip: S.Ip)
    requires Matches(session, Offer([], tokens), ip)
    ensures Matches(session, Offer(batch, tokens), ip)
  {
  }

  lemma MoreOffers(requests: seq<P.Request>, offers: map<SessionId, Offer>, more: map<SessionId, Offer>)
    requires RequestsMatch(requests, offers) && forall s <- offers :: s in more && more[s] == offers[s]
    ensures RequestsMatch(requests, more)
  {
  }

  // ---- Steps of the page ----

  /** Longer requests keep what is on its way. */
  lemma StillOnItsWay(j: Joint, k: Joint, s: SessionId)
    requires j.page.requests <= k.page.requests && k.handled == j.handled && k.host == j.host
    ensures forall f :: Covered(j, s, f) ==> Covered(k, s, f)
    ensures GivenBack(j, s) ==> GivenBack(k, s)
  {
    forall f | Posted(j, s, f) ensures Posted(k, s, f) {
      var at: nat :| InFlight(j, at) && j.page.requests[at].Post?
                     && j.page.requests[at].session == s && j.page.requests[at].item == f;
      assert InFlight(k, at) && k.page.requests[at] == j.page.requests[at];
    }
    if GivenBack(j, s) {
      var at: nat :| InFlight(j, at) && j.page.requests[at] == P.CancelSession(s);
      assert InFlight(k, at) && k.page.requests[at] == j.page.requests[at];
    }
  }

  /** The batch that was taken up at `index` is covered if it was before. */
  lemma TookUpCovered(j: Joint, k: Joint, s: SessionId, index: nat, skipped: bool)
    requires PageSide(j) && s in j.offers && k.offers == j.offers && k.host == j.host && k.handled == j.handled
    requires var o := j.offers[s]; TookUp(j.page.requests, k.page, s, o.tokens, o.batch, index, skipped)
    requires skipped || forall f <- j.offers[s].tokens :: Ahead(j.offers[s].batch, index, f) || Covered(j, s, f)
    ensures BatchCovered(k, s)
  {
    hide E.Inv, RequestsMatch, Awaited;
    StillOnItsWay(j, k, s);
    var o := j.offers[s];
    var at := |j.page.requests|;
    assert at !in j.handled;
    if Running(k.page, s) {
      var w := k.page.work;
      assert InFlight(k, at);
      if !w.skippedAny {
        forall f <- o.tokens ensures Ahead(w.batch, w.index + 1, f) || Covered(k, s, f) {
          if Ahead(o.batch, index, f) {
            var i :| index <= i < |o.batch| && o.batch[i] == f;
            if i == index {
              assert k.page.requests[at].Post? && k.page.requests[at].item == f;
              assert Posted(k, s, f);
            }
          }
        }
      }
    } else if skipped || index < |o.batch| {
      assert InFlight(k, at) && k.page.requests[at] == P.CancelSession(s);
    }
  }

  lemma RequestsStillMatch(
    before: seq<P.Request>, q: P.Page, offers: map<SessionId, Offer>, id: SessionId, index: nat, skipped: bool)
    requires RequestsMatch(before, offers) && id in offers
    requires TookUp(before, q, id, offers[id].tokens, offers[id].batch, index, skipped)
    ensures RequestsMatch(q.requests, offers)
  {
    forall i | 0 <= i < |q.requests|
      ensures match q.requests[i]
        case Prepare(_) => true
        case CancelSession(s) => s in offers
        case Post(s, f, token) => s in offers && f in offers[s].tokens && token == offers[s].tokens[f]
    {
      if i < |before| {
        assert q.requests[i] == before[i];
      }
    }
  }

  lemma OtherBatchCovered(j: Joint, k: Joint, s: SessionId)
    requires s in j.offers && BatchCovered(j, s) && k.offers == j.offers && k.host == j.host && k.handled == j.handled
    requires j.page.requests <= k.page.requests
    requires if Running(j.page, s) then k.page.work == j.page.work else !Running(k.page, s)
    ensures BatchCovered(k, s)
  {
    StillOnItsWay(j, k, s);
    hide Covered, GivenBack;
  }

  lemma PageStepInv(j: Joint, ip: S.Ip, e: E.Event)
    requires Inv(j, ip) && Enabled(j, ip, PageStep(e))
    ensures Inv(Next(j, ip, PageStep(e)), ip)
  {
    var k := Next(j, ip, PageStep(e));
    E.InvStep(j.page, e);
    PageStepOutcome(j.page, e);
    assert k == j.(page := k.page);
    hide *;
    if WentOn(j.page, k.page) {
      WentOnInv(j, k, ip);
    } else {
      LeftAloneInv(j, k, ip);
    }
  }

  lemma LeftAloneInv(j: Joint, k: Joint, ip: S.Ip)
    requires Inv(j, ip) && k == j.(page := k.page) && E.Inv(k.page) && LeftAlone(j.page, k.page)
    ensures Inv(k, ip)
  {
    hide E.Inv, HostSide, BatchCovered;
    forall s <- k.answered ensures BatchCovered(k, s) {
      OtherBatchCovered(j, k, s);
    }
    assert forall i :: 0 <= i < |j.page.requests| ==> k.page.requests[i] == j.page.requests[i];
  }

  lemma WentOnInv(j: Joint, k: Joint, ip: S.Ip)
    requires Inv(j, ip) && k == j.(page := k.page) && E.Inv(k.page) && WentOn(j.page, k.page)
    ensures Inv(k, ip)
  {
    var w := j.page.work;
    hide E.Inv, HostSide;
    forall s <- k.answered ensures BatchCovered(k, s) {
      if s == w.session {
        TookUpCovered(j, k, s, w.index + 1, w.skippedAny);
      } else {
        OtherBatchCovered(j, k, s);
      }
    }
    RequestsStillMatch(j.page.requests, k.page, j.offers, w.session, w.index + 1, w.skippedAny);
  }

  lemma TellPageStep(j: Joint, ip: S.Ip, id: SessionId)
    requires Inv(j, ip) && Enabled(j, ip, TellPage(id))
    ensures Inv(Next(j, ip, TellPage(id)), ip)
  {
    var k := Next(j, ip, TellPage(id));
    var o := j.offers[id];
    var answer := P.Accepted(id, o.tokens);
    E.InvStep(j.page, E.HostAnswered(answer));
    AdvancedTookUp(j.page.(busyRetryMs := P.BUSY_RETRY_MIN_MS), id, o.tokens, o.batch, 0, false);
    assert TookUp(j.page.requests, k.page, id, o.tokens, o.batch, 0, false);
    hide E.Inv, HostSide, P.Answered;
    forall f <- o.tokens ensures Ahead(o.batch, 0, f) {
      var i :| 0 <= i < |o.batch| && o.batch[i] == f;
    }
    forall s <- k.answered ensures BatchCovered(k, s) {
      if s == id {
        TookUpCovered(j, k, s, 0, false);
      } else {
        OtherBatchCovered(j, k, s);
      }
    }
    RequestsStillMatch(j.page.requests, k.page, j.offers, id, 0, false);
  }

  // ---- Requests that arrive ----

  lemma PostArrives(j: Joint, ip: S.Ip, at: nat, u: H.UploadId, now: nat)
    requires Inv(j, ip) && Enabled(j, ip, HandlePost(at, u, now))
    ensures var k := Next(j, ip, HandlePost(at, u, now));
            && !Awaited(k.host, j.page.requests[at].session, j.page.requests[at].item)
            && HostSide(k.host, k.offers, ip)
            && (forall s, f :: s in j.offers && Awaited(k.host, s, f) ==> Awaited(j.host, s, f))
            && (forall s :: s in j.offers && k.host.slot.Holds(s) ==> j.host.slot.Holds(s))
  {
    var request := j.page.requests[at];
    var a := PostAction(request, u, ip, now);
    assert RequestsMatch(j.page.requests, j.offers);
    assert request.session in j.offers;
    if H.Enabled(j.host, a) {
      HostSideStep(j.host, j.offers, ip, a);
      forall s <- j.offers
        ensures H.Next(j.host, a).slot.Holds(s) ==> j.host.slot.Holds(s)
        ensures forall f :: Awaited(H.Next(j.host, a), s, f) ==> Awaited(j.host, s, f)
      {
        NeverAwaitedAgain(j.host, a, s);
      }
      BegunNotAwaited(j.host, a);
    } else {
      NotAwaitedUnlessStartable(j, ip, at, u, now);
    }
  }

  lemma BegunNotAwaited(h: H.State, a: H.Action)
    requires a.BeginUpload? && H.Enabled(h, a)
    ensures !Awaited(H.Next(h, a), a.id, a.file)
  {
  }

  /** A file the host waits for is accepted for upload when its post arrives. */
  lemma NotAwaitedUnlessStartable(j: Joint, ip: S.Ip, at: nat, u: H.UploadId, now: nat)
    requires Inv(j, ip) && Enabled(j, ip, HandlePost(at, u, now))
    requires !H.Enabled(j.host, PostAction(j.page.requests[at], u, ip, now))
    ensures !Awaited(j.host, j.page.requests[at].session, j.page.requests[at].item)
  {
    var request := j.page.requests[at];
    assert RequestsMatch(j.page.requests, j.offers);
    assert request.session in j.offers && request.item in j.offers[request.session].tokens;
    hide H.Inv, E.Inv, BatchCovered;
  }

  lemma HandlePostStep(j: Joint, ip: S.Ip, at: nat, u: H.UploadId, now: nat)
    requires Inv(j, ip) && Enabled(j, ip, HandlePost(at, u, now))
    ensures Inv(Next(j, ip, HandlePost(at, u, now)), ip)
  {
    var k := Next(j, ip, HandlePost(at, u, now));
    PostArrives(j, ip, at, u, now);
    hide H.Next, H.Enabled, H.Inv, E.Inv, RequestsMatch, HostSide, Awaited, BatchCovered;
    forall s <- k.answered ensures BatchCovered(k, s) {
      CoveredByPost(j, k, at, s);
    }
  }

  lemma CoveredByPost(j: Joint, k: Joint, at: nat, s: SessionId)
    requires k == j.(host := k.host, handled := j.handled + {at}) && s in j.offers && BatchCovered(j, s)
    requires InFlight(j, at) && j.page.requests[at].Post?
    requires !Awaited(k.host, j.page.requests[at].session, j.page.requests[at].item)
    requires k.host.slot.Holds(s) ==> j.host.slot.Holds(s)
    requires forall f :: Awaited(k.host, s, f) ==> Awaited(j.host, s, f)
    ensures BatchCovered(k, s)
  {
    hide Awaited;
    forall f | Covered(j, s, f) ensures Covered(k, s, f) {
      if Posted(j, s, f) {
        PostedUnlessHandled(j, k, at, s, f);
      }
    }
    if GivenBack(j, s) {
      var i: nat :| InFlight(j, i) && j.page.requests[i] == P.CancelSession(s);
      assert InFlight(k, i);
    }
    hide Covered, GivenBack;
  }

  lemma PostedUnlessHandled(j: Joint, k: Joint, at: nat, s: SessionId, f: FileId)
    requires k.page == j.page && k.handled == j.handled + {at} && at < |j.page.requests| && Posted(j, s, f)
    ensures Posted(k, s, f)
         || (j.page.requests[at].Post? && j.page.requests[at].session == s && j.page.requests[at].item == f)
  {
    var i: nat :| InFlight(j, i) && j.page.requests[i].Post?
                  && j.page.requests[i].session == s && j.page.requests[i].item == f;
    assert i != at ==> InFlight(k, i);
  }

  lemma CancelArrives(h: H.State, ip: S.Ip, s: SessionId, offers: map<SessionId, Offer>)
    requires HostSide(h, offers, ip) && s in offers
    ensures !H.Next(h, H.Cancel(s, ip)).slot.Holds(s)
  {
  }

  lemma HandleCancelStep(j: Joint, ip: S.Ip, at: nat)
    requires Inv(j, ip) && Enabled(j, ip, HandleCancel(at))
    ensures Inv(Next(j, ip, HandleCancel(at)), ip)
  {
    var k := Next(j, ip, HandleCancel(at));
    var id := j.page.requests[at].session;
    assert RequestsMatch(j.page.requests, j.offers);
    CancelArrives(j.host, ip, id, j.offers);
    HostSideStep(j.host, j.offers, ip, H.Cancel(id, ip));
    forall s <- k.answered ensures BatchCovered(k, s) {
      NeverAwaitedAgain(j.host, H.Cancel(id, ip), s);
      CoveredByCancel(j, k, at, s);
    }
    hide H.Next, H.Inv, E.Inv, RequestsMatch, HostSide, BatchCovered;
  }

  lemma CoveredByCancel(j: Joint, k: Joint, at: nat, s: SessionId)
    requires k == j.(host := k.host, handled := j.handled + {at}) && s in j.offers && BatchCovered(j, s)
    requires InFlight(j, at) && j.page.requests[at].CancelSession?
    requires !k.host.slot.Holds(j.page.requests[at].session)
    requires k.host.slot.Holds(s) ==> j.host.slot.Holds(s)
    requires forall f :: Awaited(k.host, s, f) ==> Awaited(j.host, s, f)
    ensures BatchCovered(k, s)
  {
    forall f | Posted(j, s, f) ensures Posted(k, s, f) {
      PostedUnlessHandled(j, k, at, s, f);
    }
    if GivenBack(j, s) {
      var i: nat :| InFlight(j, i) && j.page.requests[i] == P.CancelSession(s);
      assert i != at ==> InFlight(k, i);
    }
    hide Posted, GivenBack;
  }

  // ---- Runs ----

  lemma InvStart(ip: S.Ip)
    ensures Inv(START, ip)
  {
    H.InvStart();
  }

  lemma InvStep(j: Joint, ip: S.Ip, step: Step)
    requires Inv(j, ip) && Enabled(j, ip, step)
    ensures Inv(Next(j, ip, step), ip)
  {
    match step
    case HostStep(a) =>
      var k := Next(j, ip, step);
      HostSideStep(j.host, j.offers, ip, a);
      forall s <- k.answered ensures BatchCovered(k, s) {
        CoveredByHostStep(j, k, ip, a, s);
      }
    case OpenSession(r, batch, tokens, now) => OpenSessionStep(j, ip, r, batch, tokens, now);
    case TellPage(id) => TellPageStep(j, ip, id);
    case PageStep(e) => PageStepInv(j, ip, e);
    case HandlePost(at, u, now) => HandlePostStep(j, ip, at, u, now);
    case HandleCancel(at) => HandleCancelStep(j, ip, at);
  }

  predicate Possible(j: Joint, ip: S.Ip, run: seq<Step>)
    decreases |run|
  {
    run == [] || (Enabled(j, ip, run[0]) && Possible(Next(j, ip, run[0]), ip, run[1..]))
  }

  function After(j: Joint, ip: S.Ip, run: seq<Step>): Joint
    requires Possible(j, ip, run)
    decreases |run|
  {
    if run == [] then j else After(Next(j, ip, run[0]), ip, run[1..])
  }

  lemma {:induction false} RunKeepsInv(j: Joint, ip: S.Ip, run: seq<Step>)
    requires Inv(j, ip) && Possible(j, ip, run)
    ensures Inv(After(j, ip, run), ip)
    decreases |run|
  {
    hide Inv, Next, Enabled;
    if run != [] {
      InvStep(j, ip, run[0]);
      RunKeepsInv(Next(j, ip, run[0]), ip, run[1..]);
    }
  }

  /** Nothing of the session is on its way or going on, and no upload of it was lost. */
  ghost predicate Settled(j: Joint, s: SessionId)
  {
    && !Running(j.page, s)
    && (forall at :: 0 <= at < |j.page.requests| && at !in j.handled ==> match j.page.requests[at]
          case Prepare(_) => true
          case Post(i, _, _) => i != s
          case CancelSession(i) => i != s)
    && (forall u <- j.host.uploads :: j.host.uploads[u].id != s)
    && (forall l <- j.host.lostUploads :: l.0 != s)
  }

  /**
   * Once a batch of the page has ended and its requests were handled, the host's slot no longer holds the
   * batch's session: it was closed, whatever was cancelled, retried or refused in the meantime.
   */
  lemma SlotIsFreedAfterBatch(ip: S.Ip, run: seq<Step>, s: SessionId)
    requires Possible(START, ip, run) && s in After(START, ip, run).answered && Settled(After(START, ip, run), s)
    ensures var j := After(START, ip, run);
            !j.host.slot.Holds(s) && s in j.host.closed
  {
    InvStart(ip);
    RunKeepsInv(START, ip, run);
    FreedWhenSettled(After(START, ip, run), ip, s);
  }

  lemma FreedWhenSettled(j: Joint, ip: S.Ip, s: SessionId)
    requires Inv(j, ip) && s in j.answered && Settled(j, s)
    ensures !j.host.slot.Holds(s) && s in j.host.closed
  {
    assert !GivenBack(j, s);
    assert forall f :: !Posted(j, s, f);
    assert BatchCovered(j, s) && H.Known(j.host, s).Some?;
    hide E.Inv, H.OneHolder, H.IdsFresh, H.EndsMatch, H.UploadsMatch, H.UploadsDiffer, H.SentWasIssued;
    if j.host.slot.Holds(s) {
      var session := j.host.slot.session;
      forall f <- session.files ensures session.files[f].status.Final() {
        assert !Awaited(j.host, s, f);
        assert !H.Served(j.host, s, f);
        assert (s, f) !in j.host.lostUploads;
      }
    }
  }
}
