# MyEngine GLES2 core in Dafny

This project models the core of the MyEngine GLES2 renderer back-end and proves properties about it. The core has five parts:

- **Shader source generation (`fetchCode`).** A shader is a graph of nodes. Each node has a static (declaration) fragment, an instance (statement) fragment and ordered child slots, any of which may be empty. `fetchCode` walks the graph depth first and keeps a visited set, so a node shared by several parents is emitted only once. A node's static fragment is appended on the way down and its instance fragment on the way back up.
  - The model specifies this walk as a trace of `Enter`/`Leave` events: `ShaderGraph.Walk` and `ShaderGraph.WalkChildren`.
  - The imperative traversal is proved to produce exactly the text of that trace: the mutually recursive methods `Visit` and `TraverseChildren` (the latter with a `for` loop over the child slots), and `FetchCode`.
  - For acyclic graphs, module `ShaderGraphProofs` proves three things about the trace. Every proper descendant of the root is emitted exactly once. The root is emitted only by the framing. A node's instance fragment follows those of all its children.
- **The buffer registry (`knownBuffers`, `setupBuffer`).** This is a process-wide map. The key is the decimal rendering-context id followed by the attribute's UUID; the value is a GPU buffer handle. `setupBuffer` allocates a buffer only for a key that is not yet known, and leaves an update hook and a delete hook on the attribute. It is modelled as the class `BufferRegistry.Registry`.
- **`GLES2Shader::compile` and the two `prepare` guards.** These are modelled as the class `ShaderProgram.Shader`, which has the `program`, `dirty` and `pos` fields.
  - Every answer of the driver and of the GLSL optimizer is an input (`Driver`).
  - The driver calls made are an output log of `GlCall`s.
  - A thrown `runtime_error` is a `Failure` status.
  - `GLES2FlatShader::prepare` and `GLES2Vertex::prepare` compile a dirty shader before binding it.
  - `GLES2Vertex::prepare` skips an attribute whose location is -1. `GLES2FlatShader::prepare` sets its `tex` sampler at whatever location it gets, without such a guard.
- **The renderer's plugin maps.** These are the pre-render and post-render plugin maps of `GLES2Renderer`, with register and unregister. The module also covers the `RenderItem` defaults and the `sortObjects` default (module `Renderer`).
- **The window manager's static state** (module `GlfwManager`):
  - the instance count that initialises and terminates the windowing library;
  - the context-group counter;
  - the switch-only-if-needed rule of `makeContextCurrent`.

  Both counters are C++ `unsigned` and wrap modulo 2^32. The model writes that wrap-around out explicitly.

## Model

| member | source | states |
|---|---|---|
| ShaderGraph.Walk | src/GLES2Shader.cpp:26-34 | the nodes one slot's visit enters are graph nodes not yet visited; each entered node is also left; an unvisited non-empty slot's node is entered |
| ShaderGraph.WalkChildren | src/GLES2Shader.cpp:31 | walking a node's child slots in order enters only unvisited graph nodes and leaves exactly the nodes it enters |
| ShaderGraph.WalkSkipped | src/GLES2Shader.cpp:27-28 | a null slot or an already visited node adds nothing to the visited set or to either buffer |
| ShaderGraph.WalkUnvisited | src/GLES2Shader.cpp:28-33 | visiting an unvisited node marks it, appends its static fragment before its children's static text and its instance fragment after its children's instance text |
| ShaderGraph.TextOfVisit | src/GLES2Shader.cpp:30-32 | the text of one visit is the node's static fragment then the children's (static buffer) and the children's then the node's instance fragment (main buffer) |
| ShaderGraph.ChildStep | src/GLES2Shader.cpp:31 | one child slot's walk extends the trace walked so far and the remaining siblings follow it, with the text appended left to right |
| ShaderGraph.Visit | src/GLES2Shader.cpp:26-34 | the traversal lambda grows the visited set (never shrinks it) and both buffers by exactly the trace `Walk` gives; a null or visited slot changes nothing |
| ShaderGraph.TraverseChildren | src/GLES2Shader.cpp:31 | applying the lambda to every child slot in order gives exactly the visited set and text of `WalkChildren` |
| ShaderGraph.FetchCode | src/GLES2Shader.cpp:18-44 | the returned source is `Generated(g, root)`: a function of the graph and the root alone, so the vertex and fragment generations are independent and deterministic |
| ShaderGraphProofs.WalkNoRepeat | src/GLES2Shader.cpp:28-29 | no event of a slot's walk repeats: each node is entered, and left, at most once |
| ShaderGraphProofs.WalkChildrenNoRepeat | src/GLES2Shader.cpp:28-31 | no event of a child-slot walk repeats |
| ShaderGraphProofs.WalkDescends | src/GLES2Shader.cpp:26-33 | a slot's walk enters only the slot's node and its descendants |
| ShaderGraphProofs.WalkChildrenDescend | src/GLES2Shader.cpp:31 | a child-slot walk enters only descendants of the node |
| ShaderGraphProofs.DescendantRanksLower | src/GLES2Shader.cpp:31 | in a ranked (acyclic) graph a descendant has strictly lower rank, so no node is its own descendant |
| ShaderGraphProofs.WalkOrder | src/GLES2Shader.cpp:30-32 | in an acyclic graph each node is left only after all its children are finished, and the finished set stays closed under children |
| ShaderGraphProofs.WalkChildrenOrder | src/GLES2Shader.cpp:31 | after walking a node's child slots, every child is finished and every node in the walk was left after its children |
| ShaderGraphProofs.RootTraceCorrect | src/GLES2Shader.cpp:24-36 | from a root of an acyclic graph: no repeated event, left == entered, a node is entered iff it is a proper descendant of the root, the root is never entered, and every node is left after all its children |
| ShaderGraphProofs.VisitBrackets | src/GLES2Shader.cpp:28-33 | a visit is enter, then the walk of exactly the node's not-yet-visited descendants, then leave: static fragment before all of them (pre-order), instance fragment after all of them (post-order) |
| ShaderGraph.Generated | src/GLES2Shader.cpp:20-42 | the generated source starts with the header comment and the root's static fragment; all the static text comes first and is followed directly by the `main` header holding `void main(){`; it ends with the root's instance fragment followed by the footer |
| BufferRegistry.DecimalString | src/GLES2Shader.cpp:226 | `to_string` of an unsigned gives one or more decimal digits with no leading zero |
| BufferRegistry.DecimalRoundTrip | src/GLES2Shader.cpp:226 | reading the decimal string back gives the number |
| BufferRegistry.DecimalInjective | src/GLES2Shader.cpp:226 | distinct context ids give distinct decimal strings |
| BufferRegistry.KeyInjective | src/GLES2Shader.cpp:222-226 | with UUIDs of one fixed length, distinct (context, attribute) pairs never share a registry key |
| BufferRegistry.KeyAmbiguousWithoutFixedLength | src/GLES2Shader.cpp:222-226 | without a fixed UUID length two different pairs do share a key (context 1 with "2a", context 12 with "a") |
| BufferRegistry.Registry.constructor | src/GLES2Shader.cpp:181 | the registry starts empty |
| BufferRegistry.SetupState | src/GLES2Shader.cpp:183-204 | the key is known afterwards; a known key leaves map and hooks as they were; a new key gets the driver's handle and exactly one update hook and one delete hook appended; the keys grow by this one key, and every other key and every earlier hook are kept |
| BufferRegistry.Registry.Setup | src/GLES2Shader.cpp:183-204 | the registry's map and hooks become `SetupState` of the old ones; the driver is asked for a buffer only for a new key |
| ShaderProgram.OptimizerFallback | src/GLES2Shader.cpp:69-82 | a failed optimization is not an error: `compile` has the same outcome and the same number of calls whatever the optimizer does; a stage whose optimization failed hands the driver its generated source, otherwise the optimizer's output |
| ShaderProgram.CompileOutcome | src/GLES2Shader.cpp:85-150 | compile succeeds iff the vertex handle is nonzero, both stages compile and the program links; it throws the no-handle error iff the vertex handle is 0 |
| ShaderProgram.CompileLog | src/GLES2Shader.cpp:85-156 | the calls start by creating the vertex shader and stop there iff no handle was returned; a vertex failure ends after four calls with that shader deleted, a fragment failure after seven with the fragment shader deleted; a link failure ends by deleting the new program, a success by deleting the fragment shader |
| ShaderProgram.CompileLogSources | src/GLES2Shader.cpp:85-109 | the vertex source reaches the driver right after the vertex shader is created, and the fragment source right after the fragment shader is created |
| ShaderProgram.LinkingParts | src/GLES2Shader.cpp:85-156 | past both stages, the calls are the six stage calls, the previous program's deletion when there is one, create, attach, attach, link, and the success or failure clean-up |
| ShaderProgram.LinkingShape | src/GLES2Shader.cpp:122-156 | past both stages, where each part sits: no program call among the first six, then the previous program's deletion, then `CreateProgram` of the new handle, no program call among the next three, then the clean-up |
| ShaderProgram.CompileLogCreatesProgram | src/GLES2Shader.cpp:122-123 | a program is created iff both stages compiled; a nonzero previous program is deleted immediately before the new one is created |
| ShaderProgram.CompileLogDeletesProgram | src/GLES2Shader.cpp:122-142 | the only programs deleted are the previous one (before the creation) and, as the last call, the new one on link failure |
| ShaderProgram.CompileLogShaders | src/GLES2Shader.cpp:99-156 | both shader objects are deleted on success and on link failure; the failed one on a stage failure; on a fragment failure the vertex shader object is not deleted |
| ShaderProgram.Shader.Compile | src/GLES2Shader.cpp:57-160 | `pos` is cleared; the status is `CompileOutcome`; the calls are the compile log of the optimized-or-generated sources; `dirty` clears only on success; success installs the new program handle, a link failure leaves program 0, and a stage failure leaves the program alone |
| ShaderProgram.Shader.PrepareFlat | src/GLES2Shader.cpp:162-174 | a dirty shader is compiled first and a failure ends the call; after that compile the location cache `pos` is the one `compile` cleared, the program is the new handle on success, 0 on a link failure and the old one on a stage failure, and `dirty` stays set exactly on failure; otherwise the program is bound, then the `tex` sampler set to unit 0 and the texture bound; a clean shader is not recompiled |
| ShaderProgram.AttributeCalls | src/GLES2Shader.cpp:247-259 | an attribute is bound iff its location is not -1, and every attribute call names that location |
| ShaderProgram.SetupIndices | src/GLES2Shader.cpp:228-236 | for a buffer geometry the registry becomes `SetupState` for the index attribute and the handle now stored under its key is bound as the element array buffer; otherwise the registry is unchanged and no call is made |
| ShaderProgram.SetupAttributes | src/GLES2Shader.cpp:238-259 | the registry becomes `SetupState` for the positions followed by `SetupState` for the normals; then each of the two stored handles is bound only when its location is not -1 |
| ShaderProgram.BindCalls | src/GLES2Shader.cpp:228-259 | no attribute call of a geometry's binding names location -1 |
| ShaderProgram.GeometryStateBuffers | src/GLES2Shader.cpp:228-244 | setting up a geometry adds exactly its keys and keeps every known buffer and earlier hook; a new index key gets the index handle, and a new position (normal) key not shared with an earlier attribute of the geometry gets the position (normal) handle |
| ShaderProgram.SetupGeometry | src/GLES2Shader.cpp:228-259 | the registry becomes `GeometryState`: index, positions, then normals, each through `SetupState`; the geometry's keys are then known; the calls bind the stored buffers; no attribute call names location -1 |
| ShaderProgram.VertexNode.Prepare | src/GLES2Shader.cpp:206-259 | a dirty shader is compiled before the bind and a failure ends the call with the registry unchanged; after that compile program, `pos` and `dirty` are as for `PrepareFlat` (with the same caveat on `pos`), and a clean shader keeps them; on success the registry becomes `GeometryState` under the context's decimal id, exactly the geometry's keys are added, old keys keep their buffers, and the program is bound before the stored buffers |
| Renderer.NewRenderItem | include/GLES2Renderer.hpp:126-132 | a render item holds the given mesh, depth and group |
| Renderer.RenderItemDefaultGroup | include/GLES2Renderer.hpp:129-131 | a render item built without a group has group -1 |
| Renderer.Registered | include/GLES2Renderer.hpp:86-91 | after registration the id maps to the new callback, overwriting any earlier one, with every other entry kept |
| Renderer.Unregistered | include/GLES2Renderer.hpp:93-104 | after unregistration the id is absent, the other entries are kept, and an absent id leaves the map unchanged |
| Renderer.RegisterThenUnregister | include/GLES2Renderer.hpp:86-98 | registering then unregistering an id leaves it absent and the rest as before the registration |
| Renderer.RegisterOverwrites | include/GLES2Renderer.hpp:86-91 | a second registration under an id replaces the first |
| Renderer.UnregisterIdempotent | include/GLES2Renderer.hpp:93-104 | unregistering twice is the same as unregistering once |
| Renderer.PluginRenderer.constructor | include/GLES2Renderer.hpp:19 | a new renderer has `sortObjects` set and no pre- or post-render plugins (the maps of lines 110-111 start empty) |
| Renderer.PluginRenderer.RegisterPreRenderPlugin | include/GLES2Renderer.hpp:86-88 | the pre map becomes `Registered(old, id, callback)`; the post map is unchanged |
| Renderer.PluginRenderer.RegisterPostRenderPlugin | include/GLES2Renderer.hpp:89-91 | the post map becomes `Registered(old, id, callback)`; the pre map is unchanged |
| Renderer.PluginRenderer.UnregisterPreRenderPlugin | include/GLES2Renderer.hpp:93-98 | the pre map becomes `Unregistered(old, id)`; the post map is unchanged |
| Renderer.PluginRenderer.UnregisterPostRenderPlugin | include/GLES2Renderer.hpp:99-104 | the post map becomes `Unregistered(old, id)`; the pre map is unchanged |
| GlfwManager.Increment | include/GLFWManager.hpp:53 | `++` on an unsigned adds one, and wraps 2^32-1 to 0 |
| GlfwManager.Decrement | include/GLFWManager.hpp:78 | `--` on an unsigned subtracts one, and wraps 0 to 2^32-1 |
| GlfwManager.CountUp | include/GLFWManager.hpp:53 | counting one more modulo 2^32 is the unsigned increment |
| GlfwManager.GroupsDistinct | include/GLFWManager.hpp:36 | at most 2^32 managers built without a share manager get pairwise distinct context groups |
| GlfwManager.GroupsWrap | include/GLFWManager.hpp:36 | the allocation after 2^32 of them reuses the first group |
| GlfwManager.Manager.constructor | include/GLFWManager.hpp:29 | a manager keeps the group and window it was built with |
| GlfwManager.Library.constructor | include/GLFWManager.hpp:117-118 | both counters start at 0, with the library not initialised and no current context |
| GlfwManager.Library.TakeGroup | include/GLFWManager.hpp:36 | a share manager's group is inherited and the counter is kept; otherwise the counter's value is taken and the counter incremented |
| GlfwManager.Library.Enter | include/GLFWManager.hpp:42-53 | the library is initialised only when no instance exists; a failed initialisation changes nothing; otherwise the count goes up by one |
| GlfwManager.Library.Construct | include/GLFWManager.hpp:34-69 | the group is taken even when initialisation then fails; an init failure leaves the count; a window failure leaves it incremented; success yields a fresh manager with the created window and the right group; the count always equals the live managers plus the failed windows, modulo 2^32 |
| GlfwManager.Library.Destroy | include/GLFWManager.hpp:71-85 | the count goes down by one and the library is terminated exactly when it reaches 0 |
| GlfwManager.Library.MakeContextCurrent | include/GLFWManager.hpp:94-99 | the context is switched iff another one is current or the switch is forced; afterwards this window's context is current |

## Left out

- Raw GL and GLFW calls are not executed. Their answers (handles, compile and link status, `glfwInit`, `glfwCreateWindow`) are inputs; the calls that matter for ordering are recorded as `GlCall`s. `glGenBuffers`, `glBufferData`, the info-log queries and `reportError` are not recorded.
- The GLSL optimizer is left out. Only its outcome is kept: its output on success, or `None`, in which case the generated source is used.
- Logging (`shaderLog`, `glfwLog`) is left out. It has no effect on state.
- The uniform uploads of `GLES2Vertex::prepare` (src/GLES2Shader.cpp:261-284) are left out. They hand float camera and object matrices to the driver behind a -1 guard, the same guard `AttributeCalls` models for attributes.
- `GLES2ForwardShader::prepare` (src/GLES2Shader.cpp:176-179) is left out. It only forwards to the vertex node's `prepare` and to `GLES2Fragment::prepare`, whose body is empty.
- The `bind`, `getAttribLoc` and `getUniformLoc` members, and the `GLES2Shader` constructor's field defaults, are declared in include/Shader/GLES2Shader.hpp. That header is not part of this model.
  - `bind` is modelled as `UseProgram(program)`.
  - The locations are parameters.
  - A new shader is taken to start with program 0, dirty set and no cached locations.
- The static definitions `instances = 0` and `contextGroups = 0` live in a source file that is not part of this model. Both counters are taken to start at 0.
- The update and delete hooks `setupBuffer` registers are opaque tokens. Their bodies (re-upload with a dynamic/static hint, release the buffer) are GL calls. This is where the code and its design documentation disagree: the documentation says the registry entry is erased when the attribute is destroyed, but the delete hook only deletes the GL buffer and leaves the key in `knownBuffers`. The model follows the code: nothing ever removes a key.
- The `recursive_mutex`, `getLock` and `glfwFunction` are left out, because the model is sequential.
- Resize callbacks, `init()`, window hints, fullscreen, event polling and pixel readback are left out. They are I/O plumbing.
- `render`, `projectObject` and `renderObjects`, and the painter-sort comparators, are left out. They are only declared in include/GLES2Renderer.hpp; their bodies are not part of this model, so the sort order cannot be stated.
- The `z` depth of `RenderItem` is a C++ float. The model keeps it as a `real`, which does not capture rounding.
- Plugin callbacks and mesh pointers are opaque identities (`nat`). What a callback does when it runs is not modelled.
- ShaderProgram.Shader.PrepareFlat: the lookup `getUniformLoc("tex")` (src/GLES2Shader.cpp:168) is declared in include/Shader/GLES2Shader.hpp, which is not part of this model. The location is a parameter, and the lookup is taken to leave the location cache `pos` alone. The real lookup most likely caches the location in `pos`, so the promise that `pos` is empty (after a compile) or unchanged (without one) when the call returns holds only under that assumption.
- ShaderProgram.VertexNode.Prepare: the same assumption applies to `getAttribLoc` (src/GLES2Shader.cpp:247, 254). The locations are parameters, and the promise about `pos` on return holds only if the lookups do not add to the cache.
- Renderer.PluginRenderer.constructor: the `GLES2Renderer` constructor is only declared at include/GLES2Renderer.hpp:24; its body is not part of this model. It is taken to register no plugins, so both maps start empty as their declarations give them.
- ShaderGraph.TraverseChildren: `IShaderNode::traverseChildren` is declared in a header that is not part of this model, and its body is not available. The model assumes it hands each child slot to the callback exactly once, in declared order, with null for an empty slot.
- ShaderGraph.Walk: the model proves the coverage, exactly-once and ordering properties under acyclicity, which is stated by a rank map. On a graph with a cycle the traversal still terminates in the model (the visited set stops it), but the model states no ordering for that case.
- GlfwManager.Library.Valid: ties "initialised exactly when the count is nonzero" to the count never having wrapped. Once 2^32 instances have been counted, the C++ `unsigned` can reach 0 while managers are alive.
- GlfwManager.Library.Destroy: detaching the destroyed window's current context follows the windowing library's documented behaviour. It is not a line of this code.
- Some behaviour differs between the code and its design documentation, and the model follows the code:
  - On a fragment compile failure, only the fragment shader object is deleted. The vertex shader object is not (`CompileLogShaders`).
  - A zero fragment shader handle is not checked.
  - The design describes the static fragments as collected breadth first, and so does the comment on src/GLES2Shader.cpp:30. The code appends a node's static fragment before it recurses into the node's children, which is depth-first pre-order, and the model does the same (`VisitBrackets`).
  - The context group is taken, and the counter incremented, before the library is initialised. A construction that throws on initialisation has still used up a group. A construction that throws on window creation has still counted an instance, and that count is never released.
