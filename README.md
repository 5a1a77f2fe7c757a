# GLB viewer: shell state machine, scene composition and shadow flagging

A Dafny model of `src/components/ModelViewer.jsx`, the single component of a
browser page that shows a `.glb` model dropped onto it.

- `ViewerShell` (viewer_shell.dfy) models `ModelViewer`. Its state is
  `modelUrl`, which is either null or an object-URL handle. Beside it the model
  keeps the set of handles created, the set revoked and a counter that hands
  out fresh handles in place of `URL.createObjectURL`. A drop looks only at the
  first file. The drop is accepted when that file's name, folded to lower
  case, ends in `.glb`; a fresh handle is then installed and the old one is not
  revoked. Clear revokes the loaded handle and resets `modelUrl` to null. The
  page shows the drop zone exactly when `modelUrl` is null. Because `onDrop` is
  attached only to the drop zone, a drop reaches the handler only while no
  model is loaded. The functions over the value `Shell` are the specification.
  The class `ModelViewer` holds the same state in fields, and its handlers are
  proved to follow those functions. The main theorem is
  `ReachableStatesDoNotLeak`. Dropping while a model is loaded would leak the
  old handle (`HandlerAloneWouldLeak`). No sequence of page events reaches that
  path, so every created handle except the one on screen is revoked.
- `AsciiText` (ascii_text.dfy) models the name test `toLowerCase().endsWith('.glb')`,
  with case folding limited to ASCII.
- `SceneComposer` (scene_composer.dfy) models `Scene` and `Ground` as a
  function from the panel's parameters and the model URL to a scene
  description. Centimetres scale the model by 0.01 and any other unit by 1. The
  ambient light, the directional/spot pair and the environment are each present
  exactly when their intensity is above zero. The spotlight gets half the
  configured intensity. The ground is always present, with `visible` set to the
  flag.
- `SceneGraph` (scene_graph.dfy) models the traversal in `Model`, which marks
  every mesh to cast and receive shadows. The loaded scene graph is an array
  of nodes in visiting order, each node holding its parent's index. The
  traversal updates the array in place. It is proved to flag every mesh, to
  leave every other node and the tree shape unchanged, and to be idempotent.

`handleDrop` installs a new handle without revoking the one it replaces. The
model follows the code. `HandlerAloneWouldLeak` shows the leak this would
cause, and `ReachableStatesDoNotLeak` proves that the page never takes that
path.

## Model

| member | source | states |
|---|---|---|
| `AsciiText.ToLowerChar` | src/components/ModelViewer.jsx:154 | lower-casing never yields an ASCII capital; a character changes only if it is a capital, and then moves to the small letter |
| `AsciiText.ToLower` | src/components/ModelViewer.jsx:154 | `toLowerCase` keeps the length and folds each character independently |
| `AsciiText.EndsWith` | src/components/ModelViewer.jsx:154 | `endsWith` holds iff the suffix fits and matches the string's last characters position by position |
| `AsciiText.HasGlbExtension` | src/components/ModelViewer.jsx:154 | a name is accepted iff it has at least four characters: a dot, then g, l and b, each in either case |
| `AsciiText.ToLowerIdempotent` | src/components/ModelViewer.jsx:154 | folding twice is folding once |
| `AsciiText.LowerCaseFormAccepted` | src/components/ModelViewer.jsx:154 | a name and its lower-cased form are accepted or rejected alike |
| `AsciiText.GlbInAnyCaseAccepted` | src/components/ModelViewer.jsx:154 | any name ending in a dot and g, l, b in any mix of cases (e.g. "statue.GLB") is accepted |
| `AsciiText.ObjRejected` | src/components/ModelViewer.jsx:154 | any name ending in ".obj" (e.g. "statue.obj") is rejected |
| `AsciiText.MisplacedExtensionRejected` | src/components/ModelViewer.jsx:154 | any stem followed by ".glb.txt" (e.g. "statue.glb.txt") is rejected, and so is the three-letter name "glb" |
| `SceneGraph.FlagShadows` | src/components/ModelViewer.jsx:12-15 | the callback keeps a node's kind and parent, makes a mesh cast and receive shadows, and leaves a non-mesh untouched |
| `SceneGraph.ShadowFlagged` | src/components/ModelViewer.jsx:11-16 | the traversal applies the callback to every node and keeps the node count |
| `SceneGraph.Traverse` | src/components/ModelViewer.jsx:11-16 | the in-place loop leaves the array equal to the traversal of its old contents |
| `SceneGraph.TraversalFlagsExactlyMeshes` | src/components/ModelViewer.jsx:11-16 | afterwards every mesh casts and receives shadows, non-mesh nodes are unchanged, and parents, kinds and tree well-formedness are preserved |
| `SceneGraph.TraversalIdempotent` | src/components/ModelViewer.jsx:10-16 | running the traversal again, as each render does, changes nothing |
| `SceneComposer.ModelScale` | src/components/ModelViewer.jsx:98 | the scale is 0.01 or 1, and it is 0.01 exactly for "centimeters" |
| `SceneComposer.Ground` | src/components/ModelViewer.jsx:20-27 | the plane is visible iff the flag is set; it is 50 by 50 and receives shadows |
| `SceneComposer.Compose` | src/components/ModelViewer.jsx:97-144 | ambient, directional+spot and environment are each present iff their intensity is above 0; the spot has half the configured intensity; both lights share position and shadow size; the model gets the URL, position and unit scale; the ground is the 50 by 50 shadow-receiving plane, visible iff the flag is set; the camera auto-rotates at the configured speed |
| `SceneComposer.ScaleIndependentOfPosition` | src/components/ModelViewer.jsx:98 | the scale does not depend on the model position; it is 1 for "meters" and 0.01 for "centimeters" |
| `SceneComposer.CentimetresExample` | src/components/ModelViewer.jsx:98 | in centimetres a 300-unit model is shown 3 units tall |
| `SceneComposer.ZeroSliderRemovesOnlyItsPart` | src/components/ModelViewer.jsx:104-138 | setting the ambient, spotlight or environment intensity to 0 removes exactly that part and nothing else |
| `SceneComposer.DefaultSceneIsComplete` | src/components/ModelViewer.jsx:40-95 | with the panel defaults, all lights and the environment are present, the spot's intensity is 0.75, the ground is visible and the scale is 1 |
| `ViewerShell.Presentation` | src/components/ModelViewer.jsx:176-197 | the drop zone is shown iff `modelUrl` is null; otherwise the canvas shows the model at `modelUrl` |
| `ViewerShell.FirstFile` | src/components/ModelViewer.jsx:153 | the first file is missing iff nothing was dropped; otherwise it is element 0 |
| `ViewerShell.Accepts` | src/components/ModelViewer.jsx:153-154 | the guard never accepts a drop with no file |
| `ViewerShell.AcceptsExactlyGlbFirstFile` | src/components/ModelViewer.jsx:153-154 | a drop is accepted iff there is a first file and its name passes the case-insensitive ".glb" test |
| `ViewerShell.Drop` | src/components/ModelViewer.jsx:151-158 | the drop handler keeps the state well-formed, never revokes and never forgets a created handle |
| `ViewerShell.Clear` | src/components/ModelViewer.jsx:164-169 | after clearing `modelUrl` is null, the created set is unchanged and the state stays well-formed |
| `ViewerShell.Deliver` | src/components/ModelViewer.jsx:176-181 | while the drop zone is shown a drop goes to the handler (equals `Drop`); while a model is loaded it changes nothing |
| `ViewerShell.Step` | src/components/ModelViewer.jsx:174-181 | Clear can be clicked in either view because `<Sidebar>` is rendered outside the ternary, and always leaves `modelUrl` null; a drop while a model is loaded changes nothing; no event un-creates or un-revokes a handle |
| `ViewerShell.Run` | src/components/ModelViewer.jsx:174-181 | along any sequence of page events the created and revoked sets only grow and the counter never goes back |
| `ViewerShell.RejectedDropChangesNothing` | src/components/ModelViewer.jsx:153-154 | a drop with no file, or whose first file is not a .glb (any "<stem>.obj", e.g. "statue.obj"), leaves every part of the state as it was |
| `ViewerShell.OnlyFirstFileExamined` | src/components/ModelViewer.jsx:153 | files after the first do not affect the outcome |
| `ViewerShell.AcceptedDropInstallsFreshHandle` | src/components/ModelViewer.jsx:154-156 | an accepted drop installs a handle never created before, adds only it to the created set, revokes nothing and shows the canvas |
| `ViewerShell.UpperCaseExtensionAccepted` | src/components/ModelViewer.jsx:154-156 | dropping any "<stem>.GLB" (e.g. "statue.GLB") installs the next handle, which was never created before, and shows the canvas |
| `ViewerShell.DropZoneDropShowsViewport` | src/components/ModelViewer.jsx:154-181 | dropping "<stem>.GLB" on the page while the drop zone is shown brings up the canvas with the new handle |
| `ViewerShell.ClearIdempotent` | src/components/ModelViewer.jsx:164-169 | Clear with nothing loaded is a no-op; Clear twice equals Clear once |
| `ViewerShell.ClearRevokesCurrent` | src/components/ModelViewer.jsx:165-168 | Clear with a model loaded revokes exactly that handle, creates nothing, and brings back the drop zone |
| `ViewerShell.HandlerAloneWouldLeak` | src/components/ModelViewer.jsx:154-156 | from any well-formed, leak-free state with a model loaded, an accepted drop passed straight to the handler leaves the old handle created, unrevoked and no longer installed, so the state leaks |
| `ViewerShell.AcceptedDropFromEmptyKeepsNoLeak` | src/components/ModelViewer.jsx:154-156 | an accepted drop from the drop zone keeps the state well-formed and leak-free |
| `ViewerShell.StepKeepsNoLeak` | src/components/ModelViewer.jsx:151-181 | every page event (a drop on the page, Clear) preserves well-formedness and "only the installed handle is live" |
| `ViewerShell.RunKeepsNoLeak` | src/components/ModelViewer.jsx:151-181 | any sequence of page events preserves both invariants |
| `ViewerShell.ReachableStatesDoNotLeak` | src/components/ModelViewer.jsx:147-181 | every state reachable from start-up has no live handle other than the one on screen |
| `ViewerShell.ModelViewer.constructor` | src/components/ModelViewer.jsx:148 | the component starts with `modelUrl` null and no handles |
| `ViewerShell.ModelViewer.CreateObjectUrl` | src/components/ModelViewer.jsx:155 | returns a handle never created before and records it as created |
| `ViewerShell.ModelViewer.RevokeObjectUrl` | src/components/ModelViewer.jsx:166 | adds the handle to the revoked set and changes nothing else |
| `ViewerShell.ModelViewer.HandleDrop` | src/components/ModelViewer.jsx:151-158 | the handler's field updates equal the `Drop` specification |
| `ViewerShell.ModelViewer.HandleClear` | src/components/ModelViewer.jsx:164-169 | the handler's field updates equal the `Clear` specification |
| `ViewerShell.ModelViewer.OnDrop` | src/components/ModelViewer.jsx:176-181 | a drop on the page updates the fields as `Deliver` says, so only the drop zone reaches the handler |

## Left out

- React plumbing (`useState`, `useRef`, JSX markup, `Canvas`, `Leva`). The React state is the class's fields, and each re-render is a fresh call of `Compose`.
- `handleDragOver` and `e.preventDefault()` only suppress the browser's default navigation. They have no effect on the modelled state.
- The `useControls` panel. Only its default values are modelled (`SceneComposer.Defaults`). Slider ranges and steps are enforced by the widget library, so the parameters are unconstrained here.
- `useGLTF` loading is not modelled: the scene graph the traversal works on is an input.
- Three.js object identity is not modelled. The traversal works on an array of node records, not on linked objects.
- The background colour is kept. The directional light's shadow-camera bounds and the shadow bias of both lights are not modelled. Neither are the ground's rotation and offset, the canvas camera, the shadow-map type, the `Environment` rendering and the `EffectComposer`/`Bloom` pass. All of these are fixed constants handed to the rendering engine.
- Object URLs are natural-number handles, not strings. Creating and revoking them only updates the created and revoked sets.
- `AsciiText.ToLowerChar`: folds only ASCII capitals. JavaScript `toLowerCase` also folds other Unicode letters.
- Intensities are Dafny `real`, not IEEE doubles. Only comparisons with 0 and one multiplication by 0.5 occur.
- The sidebar markup (src/components/Sidebar.jsx) is modelled only as the Clear event, which is available in both views.
