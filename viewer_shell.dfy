/**
 * `ModelViewer`: the application shell. Its one piece of state is `modelUrl`,
 * either null or an object-URL handle for the dropped file. Handles come from
 * a counter standing in for `URL.createObjectURL`; `URL.revokeObjectURL` adds
 * a handle to the revoked set.
 *
 * `Shell` and the functions over it are the specification; the class
 * `ModelViewer` holds the same state in fields and its handlers are proved to
 * follow the functions.
 */
module ViewerShell {
  import opened Wrappers
  import AsciiText
  import SceneComposer

  type Handle = SceneComposer.ModelUrl

  /** A file in the drop event's `dataTransfer.files`. */
  datatype DroppedFile = DroppedFile(name: string)

  datatype Shell = Shell(modelUrl: Option<Handle>, created: set<Handle>, revoked: set<Handle>, nextHandle: nat)
  {
    /** Handles come from the counter, and only created handles are revoked or installed. */
    predicate Valid() {
      (forall h :: h in created ==> h < nextHandle) &&
      revoked <= created &&
      (modelUrl.Some? ==> modelUrl.value in created)
    }
  }

  /** The state at start-up: `useState(null)`, no handle created yet. */
  const Initial := Shell(None, {}, {}, 0)

  /** No object URL is left live except the one installed, and the installed one is live. */
  predicate NoLeak(s: Shell) {
    (forall h :: h in s.created && h !in s.revoked ==> s.modelUrl == Some(h)) &&
    (s.modelUrl.Some? ==> s.modelUrl.value !in s.revoked)
  }

  /** What the page shows: the drop zone, or the canvas rendering the model at `url`. */
  datatype View = DropZone | Viewport(url: Handle)

  function Presentation(modelUrl: Option<Handle>): (v: View)
    ensures v.DropZone? <==> modelUrl.None?
    ensures v.Viewport? ==> modelUrl == Some(v.url)
  {
    match modelUrl
    case None => DropZone
    case Some(h) => Viewport(h)
  }

  /** `e.dataTransfer.files[0]`: undefined when nothing was dropped. */
  function FirstFile(files: seq<DroppedFile>): (r: Option<DroppedFile>)
    ensures r.None? <==> files == []
    ensures r.Some? ==> r.value == files[0]
  {
    if files == [] then None else Some(files[0])
  }

  /** The guard of `handleDrop`: a first file exists and its name ends in `.glb` in any case. */
  predicate Accepts(files: seq<DroppedFile>)
    ensures Accepts(files) ==> files != []
  {
    match FirstFile(files)
    case None => false
    case Some(f) => AsciiText.HasGlbExtension(f.name)
  }

  /** Acceptance depends on the first file alone, and on nothing but the extension test of its name. */
  lemma AcceptsExactlyGlbFirstFile(files: seq<DroppedFile>)
    ensures Accepts(files) <==> |files| > 0 && AsciiText.HasGlbExtension(files[0].name)
  {
  }

  /** `handleDrop`: on an accepted file, mint a handle and install it; otherwise do nothing. */
  function Drop(s: Shell, files: seq<DroppedFile>): (r: Shell)
    ensures s.Valid() ==> r.Valid()
    ensures r.revoked == s.revoked
    ensures r.created >= s.created
  {
    if Accepts(files) then
      Shell(Some(s.nextHandle), s.created + {s.nextHandle}, s.revoked, s.nextHandle + 1)
    else
      s
  }

  /** `handleClear`: when a model is loaded, revoke its handle and reset `modelUrl` to null. */
  function Clear(s: Shell): (r: Shell)
    ensures s.Valid() ==> r.Valid()
    ensures r.modelUrl.None?
    ensures r.created == s.created
  {
    match s.modelUrl
    case None => s
    case Some(h) => s.(modelUrl := None, revoked := s.revoked + {h})
  }

  /**
   * A drop as the page delivers it: `onDrop` is attached only to the drop
   * zone, so the handler runs only while no model is loaded.
   */
  function Deliver(s: Shell, files: seq<DroppedFile>): (r: Shell)
    ensures s.modelUrl.None? ==> r == Drop(s, files)
    ensures s.modelUrl.Some? ==> r == s
  {
    if Presentation(s.modelUrl).DropZone? then Drop(s, files) else s
  }

  datatype Event = FilesDropped(files: seq<DroppedFile>) | ClearClicked

  /** One user action: a drop on the page, or the sidebar's Clear button (present in both views). */
  function Step(s: Shell, e: Event): (r: Shell)
    ensures e.ClearClicked? ==> r.modelUrl.None?
    ensures e.FilesDropped? && s.modelUrl.Some? ==> r == s
    ensures s.created <= r.created && s.revoked <= r.revoked && s.nextHandle <= r.nextHandle
  {
    match e
    case FilesDropped(files) => Deliver(s, files)
    case ClearClicked => Clear(s)
  }

  /** The state after a sequence of page events. Handles are never forgotten or un-revoked. */
  function Run(s: Shell, events: seq<Event>): (r: Shell)
    ensures s.created <= r.created && s.revoked <= r.revoked && s.nextHandle <= r.nextHandle
    decreases |events|
  {
    if events == [] then s else Run(Step(s, events[0]), events[1..])
  }

  // ---- Properties of the specification ----

  /** A rejected drop (nothing dropped, or a first file not named *.glb, such as "statue.obj") changes nothing. */
  lemma RejectedDropChangesNothing(s: Shell, files: seq<DroppedFile>, stem: string)
    requires !Accepts(files)
    ensures Drop(s, files) == s
    ensures Drop(s, []) == s
    ensures Drop(s, [DroppedFile(stem + ".obj")]) == s
  {
    AsciiText.ObjRejected(stem);
  }

  /** Only the first file is examined: whatever follows it has no effect. */
  lemma OnlyFirstFileExamined(s: Shell, first: DroppedFile, rest: seq<DroppedFile>)
    ensures Drop(s, [first] + rest) == Drop(s, [first])
  {
    assert FirstFile([first] + rest) == FirstFile([first]);
  }

  /**
   * An accepted drop installs a handle never issued before, revokes nothing,
   * and switches the page to the canvas.
   */
  lemma AcceptedDropInstallsFreshHandle(s: Shell, files: seq<DroppedFile>)
    requires s.Valid() && Accepts(files)
    ensures var r := Drop(s, files);
      r.modelUrl.Some? && r.modelUrl.value !in s.created &&
      r.created == s.created + {r.modelUrl.value} &&
      r.revoked == s.revoked && r.Valid() &&
      Presentation(r.modelUrl).Viewport?
  {
  }

  /** A name such as "statue.GLB" is accepted: the case of the extension does not matter. */
  lemma UpperCaseExtensionAccepted(s: Shell, stem: string)
    requires s.Valid()
    ensures var r := Drop(s, [DroppedFile(stem + ".GLB")]);
      r.modelUrl == Some(s.nextHandle) && s.nextHandle !in s.created && Presentation(r.modelUrl).Viewport?
  {
    AsciiText.GlbInAnyCaseAccepted(stem, ".GLB");
  }

  /** Clear with nothing loaded does nothing, and so a second Clear adds nothing. */
  lemma ClearIdempotent(s: Shell)
    ensures s.modelUrl.None? ==> Clear(s) == s
    ensures Clear(Clear(s)) == Clear(s)
  {
  }

  /** Clear with a model loaded revokes exactly that handle and brings back the drop zone. */
  lemma ClearRevokesCurrent(s: Shell, h: Handle)
    requires s.modelUrl == Some(h)
    ensures var r := Clear(s);
      r.revoked == s.revoked + {h} && r.created == s.created &&
      r.nextHandle == s.nextHandle && Presentation(r.modelUrl) == DropZone
  {
  }

  /**
   * `handleDrop` on its own replaces a loaded handle without revoking it: from
   * any state with no leak and a model loaded, an accepted drop leaves the old
   * handle live with nothing referring to it.
   */
  lemma HandlerAloneWouldLeak(s: Shell, h: Handle, files: seq<DroppedFile>)
    requires s.Valid() && NoLeak(s) && s.modelUrl == Some(h) && Accepts(files)
    ensures var r := Drop(s, files);
      h in r.created && h !in r.revoked && r.modelUrl != Some(h) && !NoLeak(r)
  {
    assert Drop(s, files).modelUrl == Some(s.nextHandle);
    assert h < s.nextHandle;
  }

  /** Dropping on the page while the drop zone is shown reaches the handler: "statue.GLB" brings up the canvas. */
  lemma DropZoneDropShowsViewport(s: Shell, stem: string)
    requires s.Valid() && s.modelUrl.None?
    ensures Presentation(Deliver(s, [DroppedFile(stem + ".GLB")]).modelUrl) == Viewport(s.nextHandle)
  {
    UpperCaseExtensionAccepted(s, stem);
  }

  /** An accepted drop on the drop zone installs the only live handle. */
  lemma AcceptedDropFromEmptyKeepsNoLeak(s: Shell, files: seq<DroppedFile>)
    requires s.Valid() && NoLeak(s) && s.modelUrl.None? && Accepts(files)
    ensures Drop(s, files).Valid() && NoLeak(Drop(s, files))
  {
    var r := Drop(s, files);
    assert r == Shell(Some(s.nextHandle), s.created + {s.nextHandle}, s.revoked, s.nextHandle + 1);
    assert s.nextHandle !in s.revoked;
  }

  /** Every user action keeps the shell free of leaks. */
  lemma StepKeepsNoLeak(s: Shell, e: Event)
    requires s.Valid() && NoLeak(s)
    ensures Step(s, e).Valid() && NoLeak(Step(s, e))
  {
    match e
    case FilesDropped(files) =>
      if s.modelUrl.None? && Accepts(files) {
        AcceptedDropFromEmptyKeepsNoLeak(s, files);
      }
    case ClearClicked =>
  }

  /**
   * Whatever the user does from start-up, every created handle is revoked
   * except the one on screen: the leak above cannot be reached from the page.
   */
  lemma {:induction false} RunKeepsNoLeak(s: Shell, events: seq<Event>)
    requires s.Valid() && NoLeak(s)
    ensures Run(s, events).Valid() && NoLeak(Run(s, events))
    decreases |events|
  {
    if events != [] {
      StepKeepsNoLeak(s, events[0]);
      RunKeepsNoLeak(Step(s, events[0]), events[1..]);
    }
  }

  lemma ReachableStatesDoNotLeak(events: seq<Event>)
    ensures NoLeak(Run(Initial, events))
  {
    RunKeepsNoLeak(Initial, events);
  }

  // ---- The component, with its state held in fields ----

  class ModelViewer {
    var modelUrl: Option<Handle>
    var created: set<Handle>
    var revoked: set<Handle>
    var nextHandle: nat

    function Snapshot(): Shell
      reads this
    {
      Shell(modelUrl, created, revoked, nextHandle)
    }

    ghost predicate Valid()
      reads this
    {
      Snapshot().Valid()
    }

    constructor ()
      ensures Snapshot() == Initial && Valid()
    {
      modelUrl, created, revoked, nextHandle := None, {}, {}, 0;
    }

    /** `URL.createObjectURL`: a handle never issued before. */
    method CreateObjectUrl() returns (url: Handle)
      requires Valid()
      modifies this
      ensures Valid()
      ensures url == old(nextHandle) && url !in old(created)
      ensures created == old(created) + {url} && nextHandle == old(nextHandle) + 1
      ensures modelUrl == old(modelUrl) && revoked == old(revoked)
    {
      url := nextHandle;
      created := created + {url};
      nextHandle := nextHandle + 1;
    }

    /** `URL.revokeObjectURL`. */
    method RevokeObjectUrl(url: Handle)
      modifies this
      ensures revoked == old(revoked) + {url}
      ensures modelUrl == old(modelUrl) && created == old(created) && nextHandle == old(nextHandle)
    {
      revoked := revoked + {url};
    }

    method HandleDrop(files: seq<DroppedFile>)
      requires Valid()
      modifies this
      ensures Valid()
      ensures Snapshot() == Drop(old(Snapshot()), files)
    {
      var file := FirstFile(files);
      if file.Some? && AsciiText.HasGlbExtension(file.value.name) {
        var url := CreateObjectUrl();
        modelUrl := Some(url);
      }
    }

    method HandleClear()
      requires Valid()
      modifies this
      ensures Valid()
      ensures Snapshot() == Clear(old(Snapshot()))
    {
      if modelUrl.Some? {
        RevokeObjectUrl(modelUrl.value);
        modelUrl := None;
      }
    }

    /** A drop on the page: it reaches `handleDrop` only through the drop zone. */
    method OnDrop(files: seq<DroppedFile>)
      requires Valid()
      modifies this
      ensures Valid()
      ensures Snapshot() == Deliver(old(Snapshot()), files)
    {
      if Presentation(modelUrl).DropZone? {
        HandleDrop(files);
      }
    }
  }
}
