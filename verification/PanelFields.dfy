/**
 What the panel shows after any run of actions: every field of the state is what the last
 action that was accepted for it gave, or what it was at the start.
 */
module PanelFields {
  import opened Outcomes
  import opened Text
  import opened PanelReducer

  /** The last value that the actions of a run give, or `kept` if none of them gives one. */
  function Latest<V>(state: State, actions: seq<Action>, given: (State, Action) -> Option<V>, kept: V): V
    decreases actions
  {
    if actions == [] then kept
    else Latest(Reduce(state, actions[0]), actions[1..], given, OrElse(given(state, actions[0]), kept))
  }

  ghost predicate Follows<V(!new)>(field: State -> V, given: (State, Action) -> Option<V>) {
    forall state, action :: field(Reduce(state, action)) == OrElse(given(state, action), field(state))
  }

  /** A field that follows what each action gives it is at the end what the last one gave. */
  lemma {:induction false} FieldIsLatest<V(!new)>(state: State, actions: seq<Action>, field: State -> V,
                                                  given: (State, Action) -> Option<V>)
    requires Follows(field, given)
    ensures field(Run(state, actions)) == Latest(state, actions, given, field(state))
    decreases actions
  {
    if actions != [] {
      assert field(Reduce(state, actions[0])) == OrElse(given(state, actions[0]), field(state));
      FieldIsLatest(Reduce(state, actions[0]), actions[1..], field, given);
    }
  }

  // ---------------------------------------------------------------------------
  // Who gives what
  // ---------------------------------------------------------------------------

  /** An event counts if it is of this page and not older than it. */
  predicate Accepted(state: State, event: LifecycleEvent) {
    event.pageId == state.page.id && event.navigationGeneration >= state.page.navigationGeneration
  }

  /** A new navigation begins: the annotation and the design mode belong to the old one. */
  predicate Begins(state: State, action: Action) {
    match action
    case NavigationStarted(_, generation) => generation > state.page.navigationGeneration
    case LifecycleReceived(event) =>
      Accepted(state, event)
      && (event.kind == NavigationStartedEvent || event.navigationGeneration > state.page.navigationGeneration)
    case _ => false
  }

  function LoadStateGiven(state: State, action: Action): Option<LoadState> {
    match action
    case NavigationStarted(_, generation) =>
      if generation > state.page.navigationGeneration then Some(Loading) else None
    case NavigationCommitted(_, generation) =>
      if generation == state.page.navigationGeneration then Some(Loading) else None
    case NavigationFailed(generation, _) =>
      if generation == state.page.navigationGeneration then Some(Failed) else None
    case DeviceMetricsChanged(page) => if page.id == state.page.id then Some(page.loadState) else None
    case LifecycleReceived(event) =>
      if !Accepted(state, event) then None
      else (match event.kind
        case NavigationStartedEvent => Some(Loading)
        case NavigationCommittedEvent => Some(Loading)
        case NavigationFinishedEvent => Some(LoadedPage)
        case NavigationFailedEvent => Some(Failed)
        case _ => None)
    case _ => None
  }

  /** Errors come with failures and go with every other step of a navigation. */
  function ErrorGiven(state: State, action: Action): Option<Option<string>> {
    match action
    case NavigationFailed(generation, error) =>
      if generation == state.page.navigationGeneration then Some(Some(error)) else None
    case DeviceMetricsChanged(page) => if page.id == state.page.id then Some(page.error) else None
    case LifecycleReceived(event) =>
      if LoadStateGiven(state, action).None? then None
      else if event.kind != NavigationFailedEvent then Some(None)
      else Some(Some(if event.detail.Some? then event.detail.value else "Navigation failed."))
    case _ => if LoadStateGiven(state, action).Some? then Some(None) else None
  }

  /** The address an accepted event of this kind reports. */
  function UrlReported(state: State, event: LifecycleEvent): Option<string> {
    if Accepted(state, event) && event.kind in {NavigationCommittedEvent, NavigationFinishedEvent} then event.url
    else None
  }

  function UrlGiven(state: State, action: Action): Option<string> {
    match action
    case NavigationCommitted(url, generation) =>
      if generation == state.page.navigationGeneration then Some(url) else None
    case DeviceMetricsChanged(page) => if page.id == state.page.id then Some(page.url) else None
    case LifecycleReceived(event) => UrlReported(state, event)
    case _ => None
  }

  /** What the address bar holds: typed, navigated to, or reported. */
  function AddressGiven(state: State, action: Action): Option<string> {
    match action
    case AddressChanged(value) => Some(value)
    case NavigationStarted(input, generation) =>
      if generation > state.page.navigationGeneration then Some(input) else None
    case NavigationCommitted(url, generation) =>
      if generation == state.page.navigationGeneration then Some(url) else None
    case LifecycleReceived(event) => UrlReported(state, event)
    case _ => None
  }

  /** A reported title counts trimmed, and not if it is blank. */
  function TitleGiven(state: State, action: Action): Option<string> {
    match action
    case DeviceMetricsChanged(page) => if page.id == state.page.id then Some(page.title) else None
    case LifecycleReceived(event) =>
      if Accepted(state, event) && event.kind == TitleChangedEvent && event.detail.Some?
         && TrimScript(event.detail.value) != ""
      then Some(TrimScript(event.detail.value)) else None
    case _ => None
  }

  function AnnotationGiven(state: State, action: Action): Option<Option<Annotation>> {
    if Begins(state, action) then Some(None)
    else match action
      case AnnotationCreated(annotation) =>
        if annotation.pageId == state.page.id && annotation.navigationGeneration == state.page.navigationGeneration
        then Some(Some(annotation)) else None
      case AnnotationCommentChanged(comment) =>
        if state.annotation.Some? then Some(Some(state.annotation.value.(comment := comment))) else None
      case AnnotationCleared => Some(None)
      case _ => None
  }

  function CommentGiven(state: State, action: Action): Option<string> {
    if Begins(state, action) then Some("")
    else match action
      case AnnotationCreated(annotation) =>
        if annotation.pageId == state.page.id && annotation.navigationGeneration == state.page.navigationGeneration
        then Some(annotation.comment) else None
      case AnnotationCommentChanged(comment) => Some(comment)
      case AnnotationCleared => Some("")
      case _ => None
  }

  function DesignModeGiven(state: State, action: Action): Option<bool> {
    if action.DesignModeChanged? then Some(action.enabled) else if Begins(state, action) then Some(false) else None
  }

  predicate Closes(state: State, action: Action) {
    action.LifecycleReceived? && Accepted(state, action.event) && action.event.kind == PageClosedEvent
  }

  function EffectiveGiven(state: State, action: Action): Option<bool> {
    match action
    case SurfaceVisibilityChanged(visible) => Some(visible)
    case DeviceMetricsChanged(page) => if page.id == state.page.id then Some(page.effectiveVisible) else None
    case _ => if Closes(state, action) then Some(false) else None
  }

  function RequestedGiven(state: State, action: Action): Option<bool> {
    match action
    case DeviceMetricsChanged(page) => if page.id == state.page.id then Some(page.requestedVisible) else None
    case _ => if Closes(state, action) then Some(false) else None
  }

  function MetricsGiven(state: State, action: Action): Option<Option<string>> {
    if action.DeviceMetricsChanged? && action.page.id == state.page.id then Some(action.page.deviceMetrics) else None
  }

  function EventGiven(state: State, action: Action): Option<Option<LifecycleEvent>> {
    if action.LifecycleReceived? && Accepted(state, action.event) then Some(Some(action.event)) else None
  }

  function IntentGiven(state: State, action: Action): Option<Intent> {
    if action.GrabIntentChanged? then Some(action.intent) else None
  }

  function BoundsGiven(state: State, action: Action): Option<Option<string>> {
    if action.SurfaceBoundsChanged? then Some(action.bounds) else None
  }

  function DepthGiven(state: State, action: Action): Option<int> {
    if !action.ModalDepthChanged? then None else if action.depth > 0 then Some(action.depth) else Some(0)
  }

  function QuarantineGiven(state: State, action: Action): Option<bool> {
    if action.ProfileCookieImportQuarantined? then Some(true) else None
  }

  // ---------------------------------------------------------------------------
  // One action
  // ---------------------------------------------------------------------------

  /** What an accepted event does to the page. */
  lemma KindPage(state: State, event: LifecycleEvent)
    ensures var page, next := state.page, ApplyKind(state, event).page;
            && next.loadState
               == (match event.kind
                   case NavigationStartedEvent => Loading
                   case NavigationCommittedEvent => Loading
                   case NavigationFinishedEvent => LoadedPage
                   case NavigationFailedEvent => Failed
                   case _ => page.loadState)
            && next.error
               == (match event.kind
                   case NavigationFailedEvent =>
                     Some(if event.detail.Some? then event.detail.value else "Navigation failed.")
                   case TitleChangedEvent => page.error
                   case PageClosedEvent => page.error
                   case OtherEvent => page.error
                   case _ => None)
  {
  }

  lemma KindTexts(state: State, event: LifecycleEvent)
    ensures var page, next := state.page, ApplyKind(state, event).page;
            && next.url == (if event.kind in {NavigationCommittedEvent, NavigationFinishedEvent}
                            then OrElse(event.url, page.url) else page.url)
            && next.title == (if event.kind == TitleChangedEvent && event.detail.Some?
                                 && TrimScript(event.detail.value) != ""
                              then TrimScript(event.detail.value) else page.title)
  {
    assert TrimScript("") == "";
  }

  lemma PageFollows(state: State, action: Action)
    ensures var next := Reduce(state, action).page;
            && next.loadState == OrElse(LoadStateGiven(state, action), state.page.loadState)
            && next.error == OrElse(ErrorGiven(state, action), state.page.error)
  {
    if action.LifecycleReceived? {
      KindPage(Advance(state, action.event.navigationGeneration), action.event);
    }
  }

  lemma TextsFollow(state: State, action: Action)
    ensures var next := Reduce(state, action).page;
            && next.url == OrElse(UrlGiven(state, action), state.page.url)
            && next.title == OrElse(TitleGiven(state, action), state.page.title)
  {
    if action.LifecycleReceived? {
      KindTexts(Advance(state, action.event.navigationGeneration), action.event);
    }
  }

  /** What an event can do to visibility. */
  lemma EventVisibility(state: State, event: LifecycleEvent)
    ensures var next := ReduceLifecycle(state, event).page;
            var closes := Accepted(state, event) && event.kind == PageClosedEvent;
            && next.effectiveVisible == (if closes then false else state.page.effectiveVisible)
            && next.requestedVisible == (if closes then false else state.page.requestedVisible)
            && next.deviceMetrics == state.page.deviceMetrics
  {
    KindVisibility(Advance(state, event.navigationGeneration), event);
  }

  lemma KindVisibility(state: State, event: LifecycleEvent)
    ensures var next, closes := ApplyKind(state, event).page, event.kind == PageClosedEvent;
            && next.effectiveVisible == (if closes then false else state.page.effectiveVisible)
            && next.requestedVisible == (if closes then false else state.page.requestedVisible)
            && next.deviceMetrics == state.page.deviceMetrics
  {
  }

  lemma VisibilityFollows(state: State, action: Action)
    ensures var next := Reduce(state, action).page;
            && next.effectiveVisible == OrElse(EffectiveGiven(state, action), state.page.effectiveVisible)
            && next.requestedVisible == OrElse(RequestedGiven(state, action), state.page.requestedVisible)
            && next.deviceMetrics == OrElse(MetricsGiven(state, action), state.page.deviceMetrics)
  {
    if action.LifecycleReceived? {
      EventVisibility(state, action.event);
    }
  }

  /** What an event can do to the drafts. */
  lemma EventDrafts(state: State, event: LifecycleEvent)
    ensures var next := ReduceLifecycle(state, event);
            var begins := Begins(state, LifecycleReceived(event));
            && next.addressDraft == OrElse(UrlReported(state, event), state.addressDraft)
            && next.annotation == (if begins then None else state.annotation)
            && next.annotationComment == (if begins then "" else state.annotationComment)
            && next.designMode == (if begins then false else state.designMode)
  {
    var advanced := Advance(state, event.navigationGeneration);
    match event.kind
    case NavigationStartedEvent => assert ApplyKind(advanced, event).addressDraft == state.addressDraft;
    case NavigationCommittedEvent => assert ApplyKind(advanced, event).designMode == advanced.designMode;
    case NavigationFinishedEvent => assert ApplyKind(advanced, event).designMode == advanced.designMode;
    case _ => assert ApplyKind(advanced, event).addressDraft == state.addressDraft;
  }

  lemma DraftsFollow(state: State, action: Action)
    ensures var next := Reduce(state, action);
            && next.addressDraft == OrElse(AddressGiven(state, action), state.addressDraft)
            && next.annotation == OrElse(AnnotationGiven(state, action), state.annotation)
            && next.annotationComment == OrElse(CommentGiven(state, action), state.annotationComment)
            && next.designMode == OrElse(DesignModeGiven(state, action), state.designMode)
  {
    if action.LifecycleReceived? {
      EventDrafts(state, action.event);
    }
  }

  /** An accepted event is remembered; the settings are none of its business. */
  lemma EventSettings(state: State, event: LifecycleEvent)
    ensures var next := ReduceLifecycle(state, event);
            && next.grabIntent == state.grabIntent && next.surfaceBounds == state.surfaceBounds
            && next.modalDepth == state.modalDepth && next.cookieImportQuarantined == state.cookieImportQuarantined
            && next.lastLifecycleEvent == (if Accepted(state, event) then Some(event) else state.lastLifecycleEvent)
  {
    var advanced := Advance(state, event.navigationGeneration);
    match event.kind
    case NavigationStartedEvent => assert ApplyKind(advanced, event).grabIntent == state.grabIntent;
    case _ => assert ApplyKind(advanced, event).grabIntent == state.grabIntent;
  }

  lemma SettingsFollow(state: State, action: Action)
    ensures var next := Reduce(state, action);
            && next.grabIntent == OrElse(IntentGiven(state, action), state.grabIntent)
            && next.surfaceBounds == OrElse(BoundsGiven(state, action), state.surfaceBounds)
            && next.modalDepth == OrElse(DepthGiven(state, action), state.modalDepth)
            && next.cookieImportQuarantined == OrElse(QuarantineGiven(state, action), state.cookieImportQuarantined)
            && next.lastLifecycleEvent == OrElse(EventGiven(state, action), state.lastLifecycleEvent)
  {
    if action.LifecycleReceived? {
      EventSettings(state, action.event);
    }
  }

  // ---------------------------------------------------------------------------
  // Runs
  // ---------------------------------------------------------------------------

  /** The page shows the load state, error, address and title last given for it. */
  lemma PageShowsLatest(state: State, actions: seq<Action>)
    ensures var page := Run(state, actions).page;
            && page.loadState == Latest(state, actions, LoadStateGiven, state.page.loadState)
            && page.error == Latest(state, actions, ErrorGiven, state.page.error)
            && page.url == Latest(state, actions, UrlGiven, state.page.url)
            && page.title == Latest(state, actions, TitleGiven, state.page.title)
  {
    forall s, a { PageFollows(s, a); }
    forall s, a { TextsFollow(s, a); }
    FieldIsLatest(state, actions, (s: State) => s.page.loadState, LoadStateGiven);
    FieldIsLatest(state, actions, (s: State) => s.page.error, ErrorGiven);
    FieldIsLatest(state, actions, (s: State) => s.page.url, UrlGiven);
    FieldIsLatest(state, actions, (s: State) => s.page.title, TitleGiven);
  }

  /** And it is visible as last asked for, until it closes. */
  lemma VisibilityIsLatest(state: State, actions: seq<Action>)
    ensures var page := Run(state, actions).page;
            && page.effectiveVisible == Latest(state, actions, EffectiveGiven, state.page.effectiveVisible)
            && page.requestedVisible == Latest(state, actions, RequestedGiven, state.page.requestedVisible)
            && page.deviceMetrics == Latest(state, actions, MetricsGiven, state.page.deviceMetrics)
  {
    forall s, a { VisibilityFollows(s, a); }
    FieldIsLatest(state, actions, (s: State) => s.page.effectiveVisible, EffectiveGiven);
    FieldIsLatest(state, actions, (s: State) => s.page.requestedVisible, RequestedGiven);
    FieldIsLatest(state, actions, (s: State) => s.page.deviceMetrics, MetricsGiven);
  }

  /** The address bar, the annotation and its comment, and the design mode are those last given. */
  lemma DraftsAreLatest(state: State, actions: seq<Action>)
    ensures var end := Run(state, actions);
            && end.addressDraft == Latest(state, actions, AddressGiven, state.addressDraft)
            && end.annotation == Latest(state, actions, AnnotationGiven, state.annotation)
            && end.annotationComment == Latest(state, actions, CommentGiven, state.annotationComment)
            && end.designMode == Latest(state, actions, DesignModeGiven, state.designMode)
  {
    forall s, a { DraftsFollow(s, a); }
    FieldIsLatest(state, actions, (s: State) => s.addressDraft, AddressGiven);
    FieldIsLatest(state, actions, (s: State) => s.annotation, AnnotationGiven);
    FieldIsLatest(state, actions, (s: State) => s.annotationComment, CommentGiven);
    FieldIsLatest(state, actions, (s: State) => s.designMode, DesignModeGiven);
  }

  /** The remaining settings are those last given. */
  lemma SettingsAreLatest(state: State, actions: seq<Action>)
    ensures var end := Run(state, actions);
            && end.grabIntent == Latest(state, actions, IntentGiven, state.grabIntent)
            && end.surfaceBounds == Latest(state, actions, BoundsGiven, state.surfaceBounds)
            && end.modalDepth == Latest(state, actions, DepthGiven, state.modalDepth)
            && end.cookieImportQuarantined == Latest(state, actions, QuarantineGiven, state.cookieImportQuarantined)
            && end.lastLifecycleEvent == Latest(state, actions, EventGiven, state.lastLifecycleEvent)
  {
    forall s, a { SettingsFollow(s, a); }
    FieldIsLatest(state, actions, (s: State) => s.grabIntent, IntentGiven);
    FieldIsLatest(state, actions, (s: State) => s.surfaceBounds, BoundsGiven);
    FieldIsLatest(state, actions, (s: State) => s.modalDepth, DepthGiven);
    FieldIsLatest(state, actions, (s: State) => s.cookieImportQuarantined, QuarantineGiven);
    FieldIsLatest(state, actions, (s: State) => s.lastLifecycleEvent, EventGiven);
  }

  // ---------------------------------------------------------------------------
  // Prompts and downloads
  // ---------------------------------------------------------------------------

  datatype Line = Permissions | Certificates | Dialogs

  function LineOf(state: State, line: Line): seq<Prompt> {
    match line
    case Permissions => state.permissionQueue
    case Certificates => state.certificateQueue
    case Dialogs => state.dialogQueue
  }

  /** The prompt an action asks, in which line. */
  function Asked(action: Action, line: Line): Option<Prompt> {
    match (action, line)
    case (PermissionQueued(request), Permissions) => Some(request)
    case (CertificateQueued(request), Certificates) => Some(request)
    case (DialogQueued(request), Dialogs) => Some(request)
    case _ => None
  }

  /** The prompt an action resolves. */
  function Resolved(action: Action, line: Line): Option<string> {
    match (action, line)
    case (PermissionResolved(id), Permissions) => Some(id)
    case (CertificateResolved(id), Certificates) => Some(id)
    case (DialogResolved(id), Dialogs) => Some(id)
    case _ => None
  }

  /** The queue without the prompt at `i`. */
  function RemovedAt(queue: seq<Prompt>, i: nat): seq<Prompt>
    requires i < |queue|
  {
    queue[..i] + queue[i + 1..]
  }

  lemma {:induction false} WithoutAt(queue: seq<Prompt>, id: string, i: nat)
    requires DistinctIds(queue) && i < |queue| && queue[i].id == id
    ensures Without(queue, id) == RemovedAt(queue, i)
  {
    if i == 0 {
      WithoutNone(queue[1..], id);
    } else {
      WithoutAt(queue[1..], id, i - 1);
      assert RemovedAt(queue, i) == [queue[0]] + RemovedAt(queue[1..], i - 1);
    }
  }

  lemma {:induction false} WithoutNone(queue: seq<Prompt>, id: string)
    requires !HasId(queue, id)
    ensures Without(queue, id) == queue
  {
    if queue != [] {
      assert forall i :: 0 <= i < |queue[1..]| ==> queue[1..][i] == queue[i + 1];
      WithoutNone(queue[1..], id);
      assert queue == [queue[0]] + queue[1..];
    }
  }

  /** What an action does to a line. */
  lemma LineIs(state: State, action: Action, line: Line)
    ensures var before, after := LineOf(state, line), LineOf(Reduce(state, action), line);
            match (Asked(action, line), Resolved(action, line))
            case (Some(prompt), _) => after == Enqueue(before, prompt)
            case (None, Some(id)) => after == Without(before, id)
            case (None, None) => after == before
  {
    if action.LifecycleReceived? {
      LifecycleStep(state, action.event);
    }
  }

  /** A prompt not yet waiting goes to the end of its line, a resolved one leaves its place, and others stay. */
  lemma LineStep(state: State, action: Action, line: Line)
    requires DistinctIds(LineOf(state, line))
    ensures var before, after := LineOf(state, line), LineOf(Reduce(state, action), line);
            match (Asked(action, line), Resolved(action, line))
            case (Some(prompt), _) => after == if HasId(before, prompt.id) then before else before + [prompt]
            case (None, Some(id)) =>
              if !HasId(before, id) then after == before
              else exists i :: 0 <= i < |before| && before[i].id == id && after == RemovedAt(before, i)
            case (None, None) => after == before
  {
    var before, resolved := LineOf(state, line), Resolved(action, line);
    LineIs(state, action, line);
    if resolved.Some? {
      if i :| 0 <= i < |before| && before[i].id == resolved.value {
        WithoutAt(before, resolved.value, i);
      } else {
        WithoutNone(before, resolved.value);
      }
    }
  }

  function WaitingGiven(line: Line, id: string): (State, Action) -> Option<bool> {
    (state, action) =>
      if Asked(action, line).Some? && Asked(action, line).value.id == id then Some(true)
      else if Resolved(action, line) == Some(id) then Some(false) else None
  }

  /** A prompt waits from when it is asked until it is resolved, in every run. */
  lemma WaitingIsLatest(state: State, actions: seq<Action>, line: Line, id: string)
    ensures HasId(LineOf(Run(state, actions), line), id)
         == Latest(state, actions, WaitingGiven(line, id), HasId(LineOf(state, line), id))
  {
    forall s, a ensures HasId(LineOf(Reduce(s, a), line), id)
                     == OrElse(WaitingGiven(line, id)(s, a), HasId(LineOf(s, line), id)) {
      WaitingStep(s, a, line, id);
    }
    FieldIsLatest(state, actions, (s: State) => HasId(LineOf(s, line), id), WaitingGiven(line, id));
  }

  lemma WaitingStep(state: State, action: Action, line: Line, id: string)
    ensures HasId(LineOf(Reduce(state, action), line), id)
         == OrElse(WaitingGiven(line, id)(state, action), HasId(LineOf(state, line), id))
  {
    var before, asked, resolved := LineOf(state, line), Asked(action, line), Resolved(action, line);
    LineIs(state, action, line);
    if asked.Some? {
      IdsAfterAsking(before, asked.value, id);
    } else if resolved.Some? {
      WithoutIsExact(before, resolved.value);
      SameIds(before, Without(before, resolved.value), resolved.value, id);
    }
  }

  lemma IdsAfterAsking(queue: seq<Prompt>, prompt: Prompt, id: string)
    ensures HasId(Enqueue(queue, prompt), id) <==> HasId(queue, id) || prompt.id == id
  {
    var longer := queue + [prompt];
    assert longer[|queue|] == prompt && forall i :: 0 <= i < |queue| ==> longer[i] == queue[i];
  }

  lemma SameIds(before: seq<Prompt>, after: seq<Prompt>, gone: string, id: string)
    requires forall p :: p in after <==> p in before && p.id != gone
    ensures HasId(after, id) <==> HasId(before, id) && id != gone
  {
    if HasId(before, id) && id != gone {
      var i :| 0 <= i < |before| && before[i].id == id;
      assert before[i] in after;
    }
    if HasId(after, id) {
      var i :| 0 <= i < |after| && after[i].id == id;
      assert after[i] in before;
    }
  }

  /** A download that changes moves to the end of the list, from which the oldest beyond 32 fall. */
  lemma DownloadStep(state: State, action: Action)
    requires DistinctIds(state.downloads)
    ensures var before, after := state.downloads, Reduce(state, action).downloads;
            if !action.DownloadChanged? then after == before
            else
              var download := action.download;
              && |after| <= 32 && after != [] && after[|after| - 1] == download
              && (if HasId(before, download.id)
                  then exists i :: 0 <= i < |before| && before[i].id == download.id
                                   && after == LastOf(RemovedAt(before, i) + [download], 32)
                  else after == LastOf(before + [download], 32))
  {
    if action.LifecycleReceived? {
      LifecycleStep(state, action.event);
    }
    if action.DownloadChanged? {
      var before, download := state.downloads, action.download;
      if i :| 0 <= i < |before| && before[i].id == download.id {
        WithoutAt(before, download.id, i);
      } else {
        WithoutNone(before, download.id);
      }
    }
  }

  function LastOf(queue: seq<Prompt>, n: nat): (last: seq<Prompt>)
    ensures |last| == (if |queue| <= n then |queue| else n)
    ensures exists cut :: queue == cut + last
  {
    var from := if |queue| <= n then 0 else |queue| - n;
    assert queue == queue[..from] + queue[from..];
    queue[from..]
  }
}
