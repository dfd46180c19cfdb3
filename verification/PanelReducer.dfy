/**
 The reducer behind the browser panel.

 Parts of the state that the reducer only stores (bounds, metrics, the body of an
 annotation, prompt texts) are kept as plain strings or integers.
 */
module PanelReducer {
  import opened Outcomes
  import opened Text

  datatype LoadState = Idle | Loading | LoadedPage | Failed

  datatype Page = Page(
    id: string, title: string, url: string, navigationGeneration: int, loadState: LoadState,
    requestedVisible: bool, effectiveVisible: bool, error: Option<string>, deviceMetrics: Option<string>)

  datatype Annotation = Annotation(id: string, pageId: string, navigationGeneration: int, body: string, comment: string)

  datatype Prompt = Prompt(id: string, body: string)

  datatype LifecycleKind =
    | NavigationStartedEvent | NavigationCommittedEvent | NavigationFinishedEvent | NavigationFailedEvent
    | TitleChangedEvent | PageClosedEvent | OtherEvent

  datatype LifecycleEvent = LifecycleEvent(
    sequence: int, pageId: string, navigationGeneration: int, kind: LifecycleKind,
    url: Option<string>, detail: Option<string>)

  datatype Intent = Copy | Annotate

  datatype State = State(
    page: Page, cookieImportQuarantined: bool, addressDraft: string, designMode: bool, grabIntent: Intent,
    annotation: Option<Annotation>, annotationComment: string, modalDepth: int, surfaceBounds: Option<string>,
    permissionQueue: seq<Prompt>, certificateQueue: seq<Prompt>, dialogQueue: seq<Prompt>,
    downloads: seq<Prompt>, lastLifecycleEvent: Option<LifecycleEvent>)

  datatype Action =
    | AddressChanged(value: string)
    | NavigationStarted(input: string, generation: int)
    | NavigationCommitted(url: string, generation: int)
    | NavigationFailed(generation: int, error: string)
    | SurfaceBoundsChanged(bounds: Option<string>)
    | SurfaceVisibilityChanged(visible: bool)
    | DesignModeChanged(enabled: bool)
    | GrabIntentChanged(intent: Intent)
    | AnnotationCreated(annotation: Annotation)
    | AnnotationCommentChanged(comment: string)
    | AnnotationCleared
    | ModalDepthChanged(depth: int)
    | PermissionQueued(request: Prompt)
    | PermissionResolved(requestId: string)
    | CertificateQueued(request: Prompt)
    | CertificateResolved(requestId: string)
    | DialogQueued(request: Prompt)
    | DialogResolved(requestId: string)
    | DownloadChanged(download: Prompt)
    | DeviceMetricsChanged(page: Page)
    | ProfileCookieImportQuarantined
    | LifecycleReceived(event: LifecycleEvent)

  const MAX_DOWNLOADS: nat := 32

  predicate HasId(queue: seq<Prompt>, id: string) {
    exists i :: 0 <= i < |queue| && queue[i].id == id
  }

  function Without(queue: seq<Prompt>, id: string): seq<Prompt> {
    if queue == [] then []
    else (if queue[0].id == id then [] else [queue[0]]) + Without(queue[1..], id)
  }

  function Enqueue(queue: seq<Prompt>, request: Prompt): seq<Prompt> {
    if HasId(queue, request.id) then queue else queue + [request]
  }

  function Newest(queue: seq<Prompt>, n: nat): seq<Prompt> {
    if |queue| <= n then queue else queue[|queue| - n..]
  }

  function OrElse<T>(value: Option<T>, otherwise: T): T {
    match value case Some(v) => v case None => otherwise
  }

  function Reduce(state: State, action: Action): State {
    var page := state.page;
    match action
    case AddressChanged(value) => state.(addressDraft := value)
    case NavigationStarted(input, generation) =>
      if generation <= page.navigationGeneration then state
      else state.(page := page.(navigationGeneration := generation, loadState := Loading, error := None),
                  addressDraft := input, designMode := false, annotation := None, annotationComment := "")
    case NavigationCommitted(url, generation) =>
      if generation != page.navigationGeneration then state
      else state.(page := page.(url := url, loadState := Loading, error := None), addressDraft := url)
    case NavigationFailed(generation, error) =>
      if generation != page.navigationGeneration then state
      else state.(page := page.(loadState := Failed, error := Some(error)))
    case SurfaceBoundsChanged(bounds) => state.(surfaceBounds := bounds)
    case SurfaceVisibilityChanged(visible) => state.(page := page.(effectiveVisible := visible))
    case DesignModeChanged(enabled) => state.(designMode := enabled)
    case GrabIntentChanged(intent) => state.(grabIntent := intent)
    case AnnotationCreated(annotation) =>
      if annotation.pageId != page.id || annotation.navigationGeneration != page.navigationGeneration then state
      else state.(annotation := Some(annotation), annotationComment := annotation.comment)
    case AnnotationCommentChanged(comment) =>
      state.(annotationComment := comment,
             annotation := match state.annotation
                           case Some(held) => Some(held.(comment := comment))
                           case None => None)
    case AnnotationCleared => state.(annotation := None, annotationComment := "")
    case ModalDepthChanged(depth) => state.(modalDepth := if depth < 0 then 0 else depth)
    case PermissionQueued(request) => state.(permissionQueue := Enqueue(state.permissionQueue, request))
    case PermissionResolved(id) => state.(permissionQueue := Without(state.permissionQueue, id))
    case CertificateQueued(request) => state.(certificateQueue := Enqueue(state.certificateQueue, request))
    case CertificateResolved(id) => state.(certificateQueue := Without(state.certificateQueue, id))
    case DialogQueued(request) => state.(dialogQueue := Enqueue(state.dialogQueue, request))
    case DialogResolved(id) => state.(dialogQueue := Without(state.dialogQueue, id))
    case DownloadChanged(download) =>
      state.(downloads := Newest(Without(state.downloads, download.id) + [download], MAX_DOWNLOADS))
    case DeviceMetricsChanged(next) => if next.id == page.id then state.(page := next) else state
    case ProfileCookieImportQuarantined => state.(cookieImportQuarantined := true)
    case LifecycleReceived(event) => ReduceLifecycle(state, event)
  }

  /** A newer generation first clears what belonged to the older one. */
  function Advance(state: State, generation: int): State {
    if generation > state.page.navigationGeneration then
      state.(page := state.page.(navigationGeneration := generation),
             annotation := None, annotationComment := "", designMode := false)
    else state
  }

  /** The effect of an accepted event of each kind. */
  function ApplyKind(state: State, event: LifecycleEvent): State {
    var page := state.page;
    match event.kind
    case NavigationStartedEvent =>
      state.(page := page.(loadState := Loading, error := None),
             annotation := None, annotationComment := "", designMode := false)
    case NavigationCommittedEvent =>
      state.(page := page.(url := OrElse(event.url, page.url), loadState := Loading, error := None),
             addressDraft := OrElse(event.url, state.addressDraft))
    case NavigationFinishedEvent =>
      state.(page := page.(url := OrElse(event.url, page.url), loadState := LoadedPage, error := None),
             addressDraft := OrElse(event.url, state.addressDraft))
    case NavigationFailedEvent =>
      state.(page := page.(loadState := Failed, error := Some(OrElse(event.detail, "Navigation failed."))))
    case TitleChangedEvent =>
      var title := TrimScript(OrElse(event.detail, ""));
      state.(page := page.(title := if title == "" then page.title else title))
    case PageClosedEvent => state.(page := page.(effectiveVisible := false, requestedVisible := false))
    case OtherEvent => state
  }

  function ReduceLifecycle(state: State, event: LifecycleEvent): State {
    if event.pageId != state.page.id || event.navigationGeneration < state.page.navigationGeneration then state
    else ApplyKind(Advance(state, event.navigationGeneration), event).(lastLifecycleEvent := Some(event))
  }

  function Run(state: State, actions: seq<Action>): State
    decreases actions
  {
    if actions == [] then state else Run(Reduce(state, actions[0]), actions[1..])
  }

  // ---------------------------------------------------------------------------
  // Navigation generations
  // ---------------------------------------------------------------------------

  /** A device-metrics reply for this page that carries another generation than the page. */
  predicate RewritesGeneration(state: State, action: Action) {
    && action.DeviceMetricsChanged? && action.page.id == state.page.id
    && action.page.navigationGeneration != state.page.navigationGeneration
  }

  predicate Regresses(state: State, action: Action) {
    RewritesGeneration(state, action) && action.page.navigationGeneration < state.page.navigationGeneration
  }

  lemma KindStep(state: State, event: LifecycleEvent)
    ensures var next := ApplyKind(state, event);
            && next.page.id == state.page.id && next.page.navigationGeneration == state.page.navigationGeneration
            && (next.annotation.None?
                || (next.annotation == state.annotation && next.annotationComment == state.annotationComment))
            && next.modalDepth == state.modalDepth && next.downloads == state.downloads
            && next.permissionQueue == state.permissionQueue && next.certificateQueue == state.certificateQueue
            && next.dialogQueue == state.dialogQueue
  {
    match event.kind
    case NavigationStartedEvent =>
    case NavigationCommittedEvent =>
    case NavigationFinishedEvent =>
    case NavigationFailedEvent =>
    case TitleChangedEvent =>
    case PageClosedEvent =>
    case OtherEvent =>
  }

  /** What an event does to the page's identity and to the annotation held for it. */
  lemma LifecycleStep(state: State, event: LifecycleEvent)
    ensures var next := ReduceLifecycle(state, event);
            var accepted := event.pageId == state.page.id
                            && event.navigationGeneration >= state.page.navigationGeneration;
            && next.page.id == state.page.id
            && next.page.navigationGeneration
               == (if accepted then event.navigationGeneration else state.page.navigationGeneration)
            && (next.annotation.None?
                || (next.annotation == state.annotation && next.annotationComment == state.annotationComment
                    && next.page.navigationGeneration == state.page.navigationGeneration))
            && next.modalDepth == state.modalDepth && next.downloads == state.downloads
            && next.permissionQueue == state.permissionQueue && next.certificateQueue == state.certificateQueue
            && next.dialogQueue == state.dialogQueue
  {
    KindStep(Advance(state, event.navigationGeneration), event);
  }

  /** The page after one action: its identity never changes. */
  lemma PageStep(state: State, action: Action)
    ensures var page := Reduce(state, action).page;
            && page.id == state.page.id
            && page.navigationGeneration ==
               match action
               case NavigationStarted(_, generation) =>
                 if generation > state.page.navigationGeneration then generation else state.page.navigationGeneration
               case LifecycleReceived(event) =>
                 if event.pageId == page.id && event.navigationGeneration > state.page.navigationGeneration
                 then event.navigationGeneration else state.page.navigationGeneration
               case DeviceMetricsChanged(next) =>
                 if next.id == page.id then next.navigationGeneration else state.page.navigationGeneration
               case _ => state.page.navigationGeneration
  {
    if action.LifecycleReceived? {
      LifecycleStep(state, action.event);
    }
  }

  /** The one way back to an older generation is an outdated device-metrics reply. */
  lemma GenerationFallsIff(state: State, action: Action)
    ensures Reduce(state, action).page.navigationGeneration < state.page.navigationGeneration
            <==> Regresses(state, action)
  {
    PageStep(state, action);
  }

  /** The generation an action announces for the page, if it is accepted at all. */
  function Announced(pageId: string, action: Action): Option<int> {
    match action
    case NavigationStarted(_, generation) => Some(generation)
    case LifecycleReceived(event) => if event.pageId == pageId then Some(event.navigationGeneration) else None
    case DeviceMetricsChanged(page) => if page.id == pageId then Some(page.navigationGeneration) else None
    case _ => None
  }

  /** The newest generation announced, starting from `initial`. */
  function Highest(initial: int, pageId: string, actions: seq<Action>): int
    decreases actions
  {
    if actions == [] then initial
    else
      var announced := Announced(pageId, actions[0]);
      Highest(if announced.Some? && announced.value > initial then announced.value else initial, pageId, actions[1..])
  }

  /** No reply of the run is outdated when it arrives. */
  predicate NeverRegresses(state: State, actions: seq<Action>)
    decreases actions
  {
    actions == [] || (!Regresses(state, actions[0]) && NeverRegresses(Reduce(state, actions[0]), actions[1..]))
  }

  /** Whatever order events arrive in, the page is at the newest generation announced for it. */
  lemma {:induction false} GenerationIsTheHighest(state: State, actions: seq<Action>)
    requires NeverRegresses(state, actions)
    ensures Run(state, actions).page.id == state.page.id
    ensures Run(state, actions).page.navigationGeneration
         == Highest(state.page.navigationGeneration, state.page.id, actions)
    decreases actions
  {
    if actions != [] {
      PageStep(state, actions[0]);
      GenerationIsTheHighest(Reduce(state, actions[0]), actions[1..]);
    }
  }

  // ---------------------------------------------------------------------------
  // Annotations
  // ---------------------------------------------------------------------------

  /** A held annotation is of this page, not newer than it, and shows the draft comment. */
  predicate Attached(state: State) {
    state.annotation.Some? ==>
      var held := state.annotation.value;
      && held.pageId == state.page.id
      && held.navigationGeneration <= state.page.navigationGeneration
      && held.comment == state.annotationComment
  }

  predicate Current(state: State) {
    state.annotation.Some? ==> state.annotation.value.navigationGeneration == state.page.navigationGeneration
  }

  lemma AnnotationStep(state: State, action: Action)
    requires Attached(state)
    ensures !Regresses(state, action) ==> Attached(Reduce(state, action))
    ensures Current(state) ==>
              (!Current(Reduce(state, action)) <==> state.annotation.Some? && RewritesGeneration(state, action))
  {
    PageStep(state, action);
    if action.LifecycleReceived? {
      LifecycleStep(state, action.event);
    }
  }

  lemma {:induction false} AnnotationStaysAttached(state: State, actions: seq<Action>)
    requires Attached(state) && NeverRegresses(state, actions)
    ensures Attached(Run(state, actions))
    decreases actions
  {
    if actions != [] {
      AnnotationStep(state, actions[0]);
      AnnotationStaysAttached(Reduce(state, actions[0]), actions[1..]);
    }
  }

  /** An annotation goes stale in one way only: a device-metrics reply moves the page under it. */
  lemma AnnotationGoesStaleIff(state: State, action: Action)
    requires Attached(state) && Current(state)
    ensures !Current(Reduce(state, action)) <==> state.annotation.Some? && RewritesGeneration(state, action)
  {
    AnnotationStep(state, action);
  }

  /** A run in which replies always carry the page's own generation. */
  predicate NeverRewrites(state: State, actions: seq<Action>)
    decreases actions
  {
    actions == [] || (!RewritesGeneration(state, actions[0]) && NeverRewrites(Reduce(state, actions[0]), actions[1..]))
  }

  lemma {:induction false} AnnotationStaysCurrent(state: State, actions: seq<Action>)
    requires Attached(state) && Current(state) && NeverRewrites(state, actions)
    ensures Attached(Run(state, actions)) && Current(Run(state, actions)) && NeverRegresses(state, actions)
    decreases actions
  {
    if actions != [] {
      AnnotationStep(state, actions[0]);
      AnnotationStaysCurrent(Reduce(state, actions[0]), actions[1..]);
    }
  }

  /** Delivering copies the annotation, or drops it when the page has navigated since. */
  function Deliver(state: State): Delivery {
    match state.annotation
    case None => Delivery(None, state)
    case Some(held) =>
      if held.navigationGeneration != state.page.navigationGeneration then
        Delivery(None, Reduce(state, AnnotationCleared))
      else Delivery(Some(held), state)
  }

  datatype Delivery = Delivery(copied: Option<Annotation>, next: State)

  /**
   An annotation held is copied exactly if it is of the page as it is now; then it carries
   the comment on screen and stays, and otherwise it is dropped.
   */
  lemma DeliveredIsCurrent(state: State, actions: seq<Action>)
    requires Attached(state) && NeverRegresses(state, actions)
    ensures var end := Run(state, actions);
            var Delivery(copied, next) := Deliver(end);
            && (copied.Some? ==>
                  && copied.value.pageId == state.page.id
                  && copied.value.navigationGeneration
                     == Highest(state.page.navigationGeneration, state.page.id, actions)
                  && copied.value.comment == end.annotationComment)
            && (copied.Some? <==> end.annotation.Some?
                                  && end.annotation.value.navigationGeneration == end.page.navigationGeneration)
            && (copied.Some? ==> copied == end.annotation && next == end)
            && (copied.None? ==> next.annotation.None? && next.page == end.page)
  {
    AnnotationStaysAttached(state, actions);
    GenerationIsTheHighest(state, actions);
  }

  // ---------------------------------------------------------------------------
  // Errors
  // ---------------------------------------------------------------------------

  /** A page shows an error exactly when its load has failed. */
  predicate Coherent(page: Page) {
    page.error.Some? <==> page.loadState == Failed
  }

  ghost predicate CoherentReplies(actions: seq<Action>) {
    forall i :: 0 <= i < |actions| && actions[i].DeviceMetricsChanged? ==> Coherent(actions[i].page)
  }

  lemma {:induction false} ErrorsMeanFailure(state: State, actions: seq<Action>)
    requires Coherent(state.page) && CoherentReplies(actions)
    ensures Coherent(Run(state, actions).page)
    decreases actions
  {
    if actions != [] {
      ErrorStep(state, actions[0]);
      ErrorsMeanFailure(Reduce(state, actions[0]), actions[1..]);
    }
  }

  lemma ErrorStep(state: State, action: Action)
    requires Coherent(state.page) && (action.DeviceMetricsChanged? ==> Coherent(action.page))
    ensures Coherent(Reduce(state, action).page)
  {
    if action.LifecycleReceived? {
      var advanced := Advance(state, action.event.navigationGeneration);
      assert Coherent(advanced.page);
      match action.event.kind
      case TitleChangedEvent =>
      case _ =>
    }
  }

  // ---------------------------------------------------------------------------
  // Queues
  // ---------------------------------------------------------------------------

  ghost predicate DistinctIds(queue: seq<Prompt>) {
    forall i, j :: 0 <= i < j < |queue| ==> queue[i].id != queue[j].id
  }

  lemma {:induction false} WithoutIsExact(queue: seq<Prompt>, id: string)
    ensures var rest := Without(queue, id);
            && !HasId(rest, id) && |rest| <= |queue|
            && (forall p :: p in rest <==> p in queue && p.id != id)
            && (DistinctIds(queue) ==> DistinctIds(rest))
  {
    if queue != [] {
      var rest := Without(queue[1..], id);
      WithoutIsExact(queue[1..], id);
      assert queue == [queue[0]] + queue[1..];
      forall i | 0 <= i < |rest| ensures rest[i] in queue[1..] {
        assert rest[i] in rest;
      }
    }
  }

  ghost predicate Orderly(state: State) {
    && DistinctIds(state.permissionQueue) && DistinctIds(state.certificateQueue) && DistinctIds(state.dialogQueue)
    && DistinctIds(state.downloads) && |state.downloads| <= 32 && state.modalDepth >= 0
  }

  lemma DownloadsStayOrderly(downloads: seq<Prompt>, download: Prompt)
    requires DistinctIds(downloads)
    ensures var next := Newest(Without(downloads, download.id) + [download], MAX_DOWNLOADS);
            DistinctIds(next) && |next| <= MAX_DOWNLOADS && next[|next| - 1] == download
  {
    WithoutIsExact(downloads, download.id);
  }

  lemma QueuesStep(state: State, action: Action)
    requires Orderly(state)
    ensures Orderly(Reduce(state, action))
  {
    match action
    case PermissionResolved(id) => WithoutIsExact(state.permissionQueue, id);
    case CertificateResolved(id) => WithoutIsExact(state.certificateQueue, id);
    case DialogResolved(id) => WithoutIsExact(state.dialogQueue, id);
    case DownloadChanged(download) => DownloadsStayOrderly(state.downloads, download);
    case LifecycleReceived(event) => LifecycleStep(state, event);
    case _ =>
  }

  /** No prompt is ever queued twice, and the download list stays short. */
  lemma {:induction false} QueuesStayOrderly(state: State, actions: seq<Action>)
    requires Orderly(state)
    ensures Orderly(Run(state, actions))
    decreases actions
  {
    if actions != [] {
      QueuesStep(state, actions[0]);
      QueuesStayOrderly(Reduce(state, actions[0]), actions[1..]);
    }
  }
}
