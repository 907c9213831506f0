/**
  The GLES2 shader program: `GLES2Shader::compile`, the dirty/program state
  it keeps, and the `prepare` entry points of the flat shader and of the
  vertex stage that compile a dirty shader before binding it.

  Every answer of the driver and of the GLSL optimizer is an input
  (`Driver`); the driver calls made are returned as a log of `GlCall`s.
  A thrown `runtime_error` is a `Failure` status.
*/
module ShaderProgram {
  import opened Wrappers
  import opened ShaderGraph
  import opened BufferRegistry

  datatype Stage = Vertex | Fragment

  /** What the optimizer and the driver answer during one compile: the
      optimized source of each stage (`None` when the optimizer failed),
      the shader handles `glCreateShader` returns (0 is failure), whether
      each stage compiled, the handle `glCreateProgram` returns and whether
      the program linked. */
  datatype Driver = Driver(
    vertexOptimized: Option<string>,
    fragmentOptimized: Option<string>,
    vertexShader: nat,
    vertexCompiled: bool,
    fragmentShader: nat,
    fragmentCompiled: bool,
    newProgram: nat,
    linked: bool)

  /** The driver calls the model records. */
  datatype GlCall =
    | CreateShader(stage: Stage, shader: nat)
    | ShaderSource(shader: nat, source: string)
    | CompileShader(shader: nat)
    | DeleteShader(shader: nat)
    | DeleteProgram(program: nat)
    | CreateProgram(program: nat)
    | AttachShader(program: nat, shader: nat)
    | LinkProgram(program: nat)
    | DetachShader(program: nat, shader: nat)
    | UseProgram(program: nat)
    | Uniform1i(location: int, value: int)
    | ActiveTexture(unit: nat)
    | BindTexture2D(texture: nat)
    | BindBuffer(target: Target, buffer: Handle)
    | EnableVertexAttribArray(location: int)
    | VertexAttribPointer(location: int, size: nat)

  /** The three `runtime_error`s `compile` throws. */
  datatype CompileError = NoShaderHandle | CompileFailed(stage: Stage) | LinkFailed

  datatype Status = Success | Failure(error: CompileError)

  /** The source handed to the driver for a stage: the optimizer's output
      when it succeeded, the generated source otherwise. */
  function StageSource(generated: string, optimized: Option<string>): string {
    if optimized.Some? then optimized.value else generated
  }

  /** The outcome of `compile`: the first step that fails, in the order the
      code takes them. Only a zero vertex handle is tested for; a zero
      fragment handle is not. */
  function CompileOutcome(d: Driver): (r: Status)
    ensures r == Success <==> d.vertexShader != 0 && d.vertexCompiled && d.fragmentCompiled && d.linked
    ensures r == Failure(NoShaderHandle) <==> d.vertexShader == 0
  {
    if d.vertexShader == 0 then Failure(NoShaderHandle)
    else if !d.vertexCompiled then Failure(CompileFailed(Vertex))
    else if !d.fragmentCompiled then Failure(CompileFailed(Fragment))
    else if !d.linked then Failure(LinkFailed)
    else Success
  }

  /** The log creates a program. */
  predicate CreatesProgram(log: seq<GlCall>) {
    exists j :: 0 <= j < |log| && log[j].CreateProgram?
  }

  /** The driver calls `compile` makes, given the program it held before
      and the source of each stage, up to its first failure. It starts by
      creating the vertex shader, stops right there without a handle, and
      otherwise ends by releasing what the failing step leaves behind: the
      shader that did not compile, the program that did not link, or, on
      success, the last shader object. */
  function CompileLog(oldProgram: nat, vertexSource: string, fragmentSource: string, d: Driver): (log: seq<GlCall>)
    ensures log != [] && log[0] == CreateShader(Vertex, d.vertexShader)
    ensures |log| == 1 <==> CompileOutcome(d) == Failure(NoShaderHandle)
    ensures CompileOutcome(d) == Failure(CompileFailed(Vertex)) ==> |log| == 4 && log[3] == DeleteShader(d.vertexShader)
    ensures CompileOutcome(d) == Failure(CompileFailed(Fragment)) ==> |log| == 7 && log[6] == DeleteShader(d.fragmentShader)
    ensures CompileOutcome(d) == Failure(LinkFailed) ==> log[|log| - 1] == DeleteProgram(d.newProgram)
    ensures CompileOutcome(d) == Success ==> log[|log| - 1] == DeleteShader(d.fragmentShader)
  {
    var vs, fs, p := d.vertexShader, d.fragmentShader, d.newProgram;
    var created := [CreateShader(Vertex, vs)];
    if vs == 0 then created
    else
      var vertex := created + [ShaderSource(vs, vertexSource), CompileShader(vs)];
      if !d.vertexCompiled then vertex + [DeleteShader(vs)]
      else
        var stages := vertex + [CreateShader(Fragment, fs), ShaderSource(fs, fragmentSource), CompileShader(fs)];
        if !d.fragmentCompiled then stages + [DeleteShader(fs)]
        else
          var linking := stages + (if oldProgram != 0 then [DeleteProgram(oldProgram)] else [])
            + [CreateProgram(p), AttachShader(p, vs), AttachShader(p, fs), LinkProgram(p)];
          if !d.linked then linking + [DeleteShader(vs), DeleteShader(fs), DeleteProgram(p)]
          else linking + [DetachShader(p, vs), DetachShader(p, fs), DeleteShader(vs), DeleteShader(fs)]
  }

  /** Both stage sources reach the driver, each as soon as its shader
      object exists. */
  lemma CompileLogSources(oldProgram: nat, vertexSource: string, fragmentSource: string, d: Driver)
    ensures var log := CompileLog(oldProgram, vertexSource, fragmentSource, d);
      && log != [] && log[0] == CreateShader(Vertex, d.vertexShader)
      && (d.vertexShader != 0 ==> |log| > 1 && log[1] == ShaderSource(d.vertexShader, vertexSource))
      && (d.vertexShader != 0 && d.vertexCompiled ==> |log| > 4 && log[4] == ShaderSource(d.fragmentShader, fragmentSource))
  {
  }

  /** The calls of a compile that got past both stages: the six stage
      calls, the release of the previous program, the four linking calls
      and the clean-up. */
  lemma LinkingParts(oldProgram: nat, vertexSource: string, fragmentSource: string, d: Driver)
    requires d.vertexShader != 0 && d.vertexCompiled && d.fragmentCompiled
    ensures var vs, fs, p := d.vertexShader, d.fragmentShader, d.newProgram;
      CompileLog(oldProgram, vertexSource, fragmentSource, d)
        == [CreateShader(Vertex, vs), ShaderSource(vs, vertexSource), CompileShader(vs),
            CreateShader(Fragment, fs), ShaderSource(fs, fragmentSource), CompileShader(fs)]
         + (if oldProgram != 0 then [DeleteProgram(oldProgram)] else [])
         + [CreateProgram(p), AttachShader(p, vs), AttachShader(p, fs), LinkProgram(p)]
         + (if d.linked then [DetachShader(p, vs), DetachShader(p, fs), DeleteShader(vs), DeleteShader(fs)]
            else [DeleteShader(vs), DeleteShader(fs), DeleteProgram(p)])
  {
    var vs, fs := d.vertexShader, d.fragmentShader;
    assert [CreateShader(Vertex, vs)] + [ShaderSource(vs, vertexSource), CompileShader(vs)]
         + [CreateShader(Fragment, fs), ShaderSource(fs, fragmentSource), CompileShader(fs)]
        == [CreateShader(Vertex, vs), ShaderSource(vs, vertexSource), CompileShader(vs),
            CreateShader(Fragment, fs), ShaderSource(fs, fragmentSource), CompileShader(fs)];
  }

  /** The calls of a compile that got past both stages, in three parts. */
  lemma LinkingShape(oldProgram: nat, vertexSource: string, fragmentSource: string, d: Driver)
    requires d.vertexShader != 0 && d.vertexCompiled && d.fragmentCompiled
    ensures var log, vs, fs, p := CompileLog(oldProgram, vertexSource, fragmentSource, d), d.vertexShader, d.fragmentShader, d.newProgram;
      var release := if oldProgram != 0 then [DeleteProgram(oldProgram)] else [];
      var tail := if d.linked then [DetachShader(p, vs), DetachShader(p, fs), DeleteShader(vs), DeleteShader(fs)]
                  else [DeleteShader(vs), DeleteShader(fs), DeleteProgram(p)];
      && |log| == 10 + |release| + |tail|
      && (forall i :: 0 <= i < 6 ==> !log[i].CreateProgram? && !log[i].DeleteProgram?)
      && log[6..6 + |release|] == release
      && log[6 + |release|] == CreateProgram(p)
      && (forall i :: 7 + |release| <= i < 10 + |release| ==> !log[i].CreateProgram? && !log[i].DeleteProgram?)
      && log[10 + |release|..] == tail
  {
    var vs, fs, p := d.vertexShader, d.fragmentShader, d.newProgram;
    var release := if oldProgram != 0 then [DeleteProgram(oldProgram)] else [];
    var tail := if d.linked then [DetachShader(p, vs), DetachShader(p, fs), DeleteShader(vs), DeleteShader(fs)]
                else [DeleteShader(vs), DeleteShader(fs), DeleteProgram(p)];
    var stages := [CreateShader(Vertex, vs), ShaderSource(vs, vertexSource), CompileShader(vs),
                   CreateShader(Fragment, fs), ShaderSource(fs, fragmentSource), CompileShader(fs)];
    var link := [CreateProgram(p), AttachShader(p, vs), AttachShader(p, fs), LinkProgram(p)];
    LinkingParts(oldProgram, vertexSource, fragmentSource, d);
    LinkingLayout(CompileLog(oldProgram, vertexSource, fragmentSource, d), stages, release, link, tail, p);
  }

  /** Where the parts of a linking compile's calls sit among them, for any
      six stage calls and four linking calls of which only the first is a
      program call. */
  lemma LinkingLayout(log: seq<GlCall>, stages: seq<GlCall>, release: seq<GlCall>, link: seq<GlCall>, tail: seq<GlCall>, p: nat)
    requires log == stages + release + link + tail
    requires |stages| == 6 && |link| == 4 && link[0] == CreateProgram(p)
    requires forall i :: 0 <= i < 6 ==> !stages[i].CreateProgram? && !stages[i].DeleteProgram?
    requires forall i :: 1 <= i < 4 ==> !link[i].CreateProgram? && !link[i].DeleteProgram?
    ensures |log| == 10 + |release| + |tail|
    ensures forall i :: 0 <= i < 6 ==> !log[i].CreateProgram? && !log[i].DeleteProgram?
    ensures log[6..6 + |release|] == release
    ensures log[6 + |release|] == CreateProgram(p)
    ensures forall i :: 7 + |release| <= i < 10 + |release| ==> !log[i].CreateProgram? && !log[i].DeleteProgram?
    ensures log[10 + |release|..] == tail
  {
    assert log == stages + (release + (link + tail));
    assert log[6..] == release + (link + tail);
    assert log[6 + |release|..] == link + tail;
    forall i | 7 + |release| <= i < 10 + |release|
      ensures !log[i].CreateProgram? && !log[i].DeleteProgram?
    {
      assert log[i] == link[i - 6 - |release|];
    }
  }

  /** A program is created only once both stages compiled; right before
      it, the previous program is deleted exactly when there was one
      (nonzero). */
  lemma CompileLogCreatesProgram(oldProgram: nat, vertexSource: string, fragmentSource: string, d: Driver)
    ensures var log := CompileLog(oldProgram, vertexSource, fragmentSource, d);
      && (CreatesProgram(log) <==> d.vertexShader != 0 && d.vertexCompiled && d.fragmentCompiled)
      && (CreatesProgram(log) ==>
            if oldProgram != 0 then |log| > 7 && log[6] == DeleteProgram(oldProgram) && log[7] == CreateProgram(d.newProgram)
            else |log| > 6 && log[6] == CreateProgram(d.newProgram))
  {
    var log := CompileLog(oldProgram, vertexSource, fragmentSource, d);
    if d.vertexShader != 0 && d.vertexCompiled && d.fragmentCompiled {
      LinkingShape(oldProgram, vertexSource, fragmentSource, d);
      var at := if oldProgram != 0 then 7 else 6;
      assert log[at].CreateProgram?;
      if oldProgram != 0 {
        assert log[6] == log[6..7][0];
      }
    }
  }

  /** The only programs `compile` deletes are the previous one, right
      before creating the new one, and the new one, last, when linking
      failed. */
  lemma CompileLogDeletesProgram(oldProgram: nat, vertexSource: string, fragmentSource: string, d: Driver)
    ensures var log := CompileLog(oldProgram, vertexSource, fragmentSource, d);
      forall i :: 0 <= i < |log| && log[i].DeleteProgram? ==>
        || (i == 6 && oldProgram != 0 && log[i] == DeleteProgram(oldProgram))
        || (i == |log| - 1 && CompileOutcome(d) == Failure(LinkFailed) && log[i] == DeleteProgram(d.newProgram))
  {
    var log := CompileLog(oldProgram, vertexSource, fragmentSource, d);
    if d.vertexShader != 0 && d.vertexCompiled && d.fragmentCompiled {
      LinkingShape(oldProgram, vertexSource, fragmentSource, d);
      var r := if oldProgram != 0 then 1 else 0;
      var tail := log[10 + r..];
      forall i | 0 <= i < |log| && log[i].DeleteProgram?
        ensures || (i == 6 && oldProgram != 0 && log[i] == DeleteProgram(oldProgram))
                || (i == |log| - 1 && CompileOutcome(d) == Failure(LinkFailed) && log[i] == DeleteProgram(d.newProgram))
      {
        if 6 <= i < 6 + r {
          assert log[i] == log[6..6 + r][i - 6];
        } else if i >= 10 + r {
          assert log[i] == tail[i - 10 - r];
        }
      }
    }
  }

  /** Both shader objects are released whenever `compile` got as far as
      linking, and the failed one on a stage compile failure; on a
      fragment failure the vertex shader object is not released. */
  lemma CompileLogShaders(oldProgram: nat, vertexSource: string, fragmentSource: string, d: Driver)
    ensures var log, vs, fs := CompileLog(oldProgram, vertexSource, fragmentSource, d), d.vertexShader, d.fragmentShader;
      && (CompileOutcome(d) in {Success, Failure(LinkFailed)} ==> DeleteShader(vs) in log && DeleteShader(fs) in log)
      && (CompileOutcome(d) == Failure(CompileFailed(Vertex)) ==> DeleteShader(vs) in log)
      && (CompileOutcome(d) == Failure(CompileFailed(Fragment)) ==>
            DeleteShader(fs) in log && (fs != vs ==> DeleteShader(vs) !in log))
  {
    var log := CompileLog(oldProgram, vertexSource, fragmentSource, d);
    var vs, fs, p := d.vertexShader, d.fragmentShader, d.newProgram;
    if vs != 0 && d.vertexCompiled && d.fragmentCompiled {
      var tail := if d.linked then [DetachShader(p, vs), DetachShader(p, fs), DeleteShader(vs), DeleteShader(fs)]
                  else [DeleteShader(vs), DeleteShader(fs), DeleteProgram(p)];
      assert log[|log| - |tail|..] == tail;
    }
  }

  /** The log of `compile` for a shader with these roots and this previous
      program, on this graph. */
  function CompileCalls(g: Graph, vertexRoot: Uuid, fragmentRoot: Uuid, oldProgram: nat, d: Driver): seq<GlCall>
    requires WellFormed(g) && vertexRoot in g && fragmentRoot in g
  {
    CompileLog(oldProgram,
      StageSource(Generated(g, vertexRoot), d.vertexOptimized),
      StageSource(Generated(g, fragmentRoot), d.fragmentOptimized), d)
  }

  /**
    A failed optimization is not an error: whatever the optimizer does,
    `compile` ends the same way and makes as many calls, only the sources
    differ. A stage whose optimization failed hands the driver its generated
    source, and one whose optimization succeeded hands it the optimizer's
    output.
  */
  lemma OptimizerFallback(g: Graph, vertexRoot: Uuid, fragmentRoot: Uuid, oldProgram: nat, d: Driver)
    requires WellFormed(g) && vertexRoot in g && fragmentRoot in g
    ensures var plain := d.(vertexOptimized := None, fragmentOptimized := None);
      && CompileOutcome(d) == CompileOutcome(plain)
      && |CompileCalls(g, vertexRoot, fragmentRoot, oldProgram, d)| == |CompileCalls(g, vertexRoot, fragmentRoot, oldProgram, plain)|
    ensures var calls, vs, fs := CompileCalls(g, vertexRoot, fragmentRoot, oldProgram, d), d.vertexShader, d.fragmentShader;
      && (vs != 0 ==> |calls| > 1 && calls[1] == ShaderSource(vs,
            if d.vertexOptimized.None? then Generated(g, vertexRoot) else d.vertexOptimized.value))
      && (vs != 0 && d.vertexCompiled ==> |calls| > 4 && calls[4] == ShaderSource(fs,
            if d.fragmentOptimized.None? then Generated(g, fragmentRoot) else d.fragmentOptimized.value))
  {
    var vertexSource := StageSource(Generated(g, vertexRoot), d.vertexOptimized);
    var fragmentSource := StageSource(Generated(g, fragmentRoot), d.fragmentOptimized);
    CompileLogSources(oldProgram, vertexSource, fragmentSource, d);
    CompileLogLength(oldProgram, vertexSource, fragmentSource, Generated(g, vertexRoot), Generated(g, fragmentRoot), d);
  }

  /** The number of calls `compile` makes does not depend on the sources. */
  lemma CompileLogLength(oldProgram: nat, vertexSource: string, fragmentSource: string,
                         otherVertex: string, otherFragment: string, d: Driver)
    ensures var plain := d.(vertexOptimized := None, fragmentOptimized := None);
      |CompileLog(oldProgram, vertexSource, fragmentSource, d)| == |CompileLog(oldProgram, otherVertex, otherFragment, plain)|
  {
  }

  /** A `GLES2Shader`: its program handle (0 for none), the dirty flag that
      asks for a recompile, the cache of attribute and uniform locations,
      and the roots of its two shader-node graphs. */
  class Shader {
    var program: nat
    var dirty: bool
    var pos: map<string, int>
    const vertexRoot: Uuid
    const fragmentRoot: Uuid

    /** A new shader holds no program and needs compiling. */
    constructor (vertexRoot: Uuid, fragmentRoot: Uuid)
      ensures program == 0 && dirty && pos == map[]
      ensures this.vertexRoot == vertexRoot && this.fragmentRoot == fragmentRoot
    {
      program, dirty, pos := 0, true, map[];
      this.vertexRoot, this.fragmentRoot := vertexRoot, fragmentRoot;
    }

    /** The shader after a compile that ended with `r`, holding `oldProgram`
        before: no cached locations; on success the new program; after a
        link failure no program (0); after an earlier failure the old one. */
    predicate Compiled(oldProgram: nat, r: Status, d: Driver)
      reads this
    {
      && pos == map[]
      && (r.Success? ==> program == d.newProgram)
      && (r == Failure(LinkFailed) ==> program == 0)
      && (r.Failure? && r.error != LinkFailed ==> program == oldProgram)
    }

    /**
      `compile`: forget the cached locations, generate both stages'
      sources, keep each stage's optimized source when the optimizer
      succeeded, then create, compile and link, throwing at the first
      failure. Only full success clears `dirty`; a stage failure leaves
      the program alone, a link failure leaves no program (0).
    */
    method Compile(g: Graph, d: Driver) returns (r: Status, calls: seq<GlCall>)
      requires WellFormed(g) && vertexRoot in g && fragmentRoot in g
      modifies this
      ensures r == CompileOutcome(d)
      ensures calls == CompileCalls(g, vertexRoot, fragmentRoot, old(program), d)
      ensures Compiled(old(program), r, d)
      ensures dirty == (old(dirty) && r.Failure?)
    {
      pos := map[];
      var vertexCode := FetchCode(g, vertexRoot);
      var fragmentCode := FetchCode(g, fragmentRoot);
      if d.vertexOptimized.Some? {
        vertexCode := d.vertexOptimized.value;
      }
      if d.fragmentOptimized.Some? {
        fragmentCode := d.fragmentOptimized.value;
      }
      assert vertexCode == StageSource(Generated(g, vertexRoot), d.vertexOptimized);
      assert fragmentCode == StageSource(Generated(g, fragmentRoot), d.fragmentOptimized);
      var vs := d.vertexShader;
      calls := [CreateShader(Vertex, vs)];
      if vs == 0 {
        return Failure(NoShaderHandle), calls;
      }
      calls := calls + [ShaderSource(vs, vertexCode), CompileShader(vs)];
      if !d.vertexCompiled {
        calls := calls + [DeleteShader(vs)];
        return Failure(CompileFailed(Vertex)), calls;
      }
      var fs := d.fragmentShader;
      calls := calls + [CreateShader(Fragment, fs), ShaderSource(fs, fragmentCode), CompileShader(fs)];
      if !d.fragmentCompiled {
        calls := calls + [DeleteShader(fs)];
        return Failure(CompileFailed(Fragment)), calls;
      }
      calls := calls + (if program != 0 then [DeleteProgram(program)] else []);
      program := d.newProgram;
      calls := calls + [CreateProgram(program), AttachShader(program, vs), AttachShader(program, fs), LinkProgram(program)];
      if !d.linked {
        calls := calls + [DeleteShader(vs), DeleteShader(fs), DeleteProgram(program)];
        program := 0;
        return Failure(LinkFailed), calls;
      }
      calls := calls + [DetachShader(program, vs), DetachShader(program, fs), DeleteShader(vs), DeleteShader(fs)];
      dirty := false;
      r := Success;
    }

    /**
      `GLES2FlatShader::prepare`: compile first if dirty (a throw ends the
      call), then bind the program, point the `tex` sampler at texture
      unit 0 and bind the texture there. The sampler location is used as
      the driver reports it, -1 included: the code does not guard it.
    */
    method PrepareFlat(g: Graph, d: Driver, texLoc: int, tex: nat) returns (r: Status, calls: seq<GlCall>)
      requires WellFormed(g) && vertexRoot in g && fragmentRoot in g
      modifies this
      ensures var compiled := if old(dirty) then CompileCalls(g, vertexRoot, fragmentRoot, old(program), d) else [];
        && r == (if old(dirty) then CompileOutcome(d) else Success)
        && (r.Failure? ==> calls == compiled)
        && (r.Success? ==> !dirty && calls == compiled + [UseProgram(program), Uniform1i(texLoc, 0), ActiveTexture(0), BindTexture2D(tex)])
      ensures old(dirty) ==> Compiled(old(program), r, d) && dirty == r.Failure?
      ensures !old(dirty) ==> program == old(program) && !dirty && pos == old(pos)
    {
      r, calls := Success, [];
      if dirty {
        r, calls := Compile(g, d);
        if r.Failure? {
          return;
        }
      }
      calls := calls + [UseProgram(program)];
      calls := calls + [Uniform1i(texLoc, 0), ActiveTexture(0), BindTexture2D(tex)];
    }
  }

  /** What a mesh hands to the vertex stage: the index attribute's UUID
      when its geometry is a buffer geometry, and the UUIDs of its position
      and normal attributes. */
  datatype Geometry = Geometry(indices: Option<string>, positions: string, normals: string)

  /** The handles `glGenBuffers` would return for each attribute. */
  datatype NewBuffers = NewBuffers(indices: Handle, positions: Handle, normals: Handle)

  /** Binding one vertex attribute: nothing for location -1, otherwise bind
      its buffer, enable the location and describe three floats per vertex. */
  function AttributeCalls(location: int, buffer: Handle): (calls: seq<GlCall>)
    ensures location == -1 <==> calls == []
    ensures forall c :: c in calls && (c.EnableVertexAttribArray? || c.VertexAttribPointer?) ==> c.location == location
  {
    if location == -1 then []
    else [BindBuffer(ArrayBuffer, buffer), EnableVertexAttribArray(location), VertexAttribPointer(location, 3)]
  }

  /** The registry keys `GLES2Vertex::prepare` sets up for a geometry in the
      context whose decimal id is `scid`. */
  function GeometryKeys(scid: string, geometry: Geometry): set<string> {
    {scid + geometry.positions, scid + geometry.normals}
      + (if geometry.indices.Some? then {scid + geometry.indices.value} else {})
  }

  /** A `GLES2Vertex` node: the vertex stage of a shader. */
  class VertexNode {
    const shader: Shader

    constructor (shader: Shader)
      ensures this.shader == shader
    {
      this.shader := shader;
    }

    /**
      `GLES2Vertex::prepare`: compile the shader first if dirty (a throw
      ends the call), bind it, then set up and bind the geometry's
      buffers.
    */
    method Prepare(g: Graph, d: Driver, registry: Registry, contextId: ContextId, geometry: Geometry,
                   posLoc: int, normLoc: int, driverBuffers: NewBuffers) returns (r: Status, calls: seq<GlCall>)
      requires WellFormed(g) && shader.vertexRoot in g && shader.fragmentRoot in g && registry.Valid()
      modifies shader, registry
      ensures registry.Valid()
      ensures var compiled := if old(shader.dirty) then CompileCalls(g, shader.vertexRoot, shader.fragmentRoot, old(shader.program), d) else [];
        && r == (if old(shader.dirty) then CompileOutcome(d) else Success)
        && (r.Failure? ==> calls == compiled && registry.State() == old(registry.State()))
        && (r.Success? ==>
              && !shader.dirty
              && GeometryKeys(DecimalString(contextId), geometry) <= registry.known.Keys
              && calls == compiled + [UseProgram(shader.program)]
                   + BindCalls(DecimalString(contextId), geometry, posLoc, normLoc, registry.known))
      ensures old(shader.dirty) ==> shader.Compiled(old(shader.program), r, d) && shader.dirty == r.Failure?
      ensures !old(shader.dirty) ==> shader.program == old(shader.program) && !shader.dirty && shader.pos == old(shader.pos)
      ensures r.Success? ==> registry.State() == GeometryState(old(registry.State()), DecimalString(contextId), geometry, driverBuffers)
      ensures r.Success? ==> registry.known.Keys == old(registry.known.Keys) + GeometryKeys(DecimalString(contextId), geometry)
      ensures forall k :: k in old(registry.known) ==> k in registry.known && registry.known[k] == old(registry.known)[k]
    {
      r, calls := Success, [];
      if shader.dirty {
        r, calls := shader.Compile(g, d);
        if r.Failure? {
          return;
        }
      }
      calls := calls + [UseProgram(shader.program)];
      var scid := DecimalString(contextId);
      ghost var before := registry.State();
      var bound := SetupGeometry(registry, scid, geometry, posLoc, normLoc, driverBuffers);
      GeometryStateBuffers(before, scid, geometry, driverBuffers);
      calls := calls + bound;
    }
  }

  /** The calls binding a geometry whose buffers are all known: the index
      buffer of a buffer geometry, then the position and normal attributes. */
  function BindCalls(scid: string, geometry: Geometry, posLoc: int, normLoc: int, known: map<string, Handle>): (calls: seq<GlCall>)
    requires GeometryKeys(scid, geometry) <= known.Keys
    ensures forall c :: c in calls && (c.EnableVertexAttribArray? || c.VertexAttribPointer?) ==> c.location != -1
  {
    (if geometry.indices.Some? then [BindBuffer(ElementArrayBuffer, known[scid + geometry.indices.value])] else [])
      + AttributeCalls(posLoc, known[scid + geometry.positions])
      + AttributeCalls(normLoc, known[scid + geometry.normals])
  }

  /** What `GLES2Vertex::prepare` does to the registry: set up the index
      buffer of a buffer geometry, then the position buffer, then the
      normal buffer, each with the handle the driver hands out for it. */
  function GeometryState(s: RegistryState, scid: string, geometry: Geometry, driverBuffers: NewBuffers): RegistryState {
    var indexed := if geometry.indices.Some? then SetupState(s, scid, geometry.indices.value, ElementArrayBuffer, driverBuffers.indices) else s;
    var positioned := SetupState(indexed, scid, geometry.positions, ArrayBuffer, driverBuffers.positions);
    SetupState(positioned, scid, geometry.normals, ArrayBuffer, driverBuffers.normals)
  }

  /**
    Setting up a geometry adds exactly its keys, keeps every known buffer
    and every earlier hook, and stores under each new key the handle
    generated for the first of the geometry's attributes with that key
    (index, then positions, then normals).
  */
  lemma GeometryStateBuffers(s: RegistryState, scid: string, geometry: Geometry, driverBuffers: NewBuffers)
    ensures var t, pk, nk := GeometryState(s, scid, geometry, driverBuffers), scid + geometry.positions, scid + geometry.normals;
      && t.known.Keys == s.known.Keys + GeometryKeys(scid, geometry)
      && (forall k :: k in s.known ==> k in t.known && t.known[k] == s.known[k])
      && |s.hooks| <= |t.hooks| && t.hooks[..|s.hooks|] == s.hooks
      && (geometry.indices.Some? && scid + geometry.indices.value !in s.known ==>
            t.known[scid + geometry.indices.value] == driverBuffers.indices)
      && (pk !in s.known && (geometry.indices.Some? ==> pk != scid + geometry.indices.value) ==>
            t.known[pk] == driverBuffers.positions)
      && (nk !in s.known && nk != pk && (geometry.indices.Some? ==> nk != scid + geometry.indices.value) ==>
            t.known[nk] == driverBuffers.normals)
  {
    var indexed := if geometry.indices.Some? then SetupState(s, scid, geometry.indices.value, ElementArrayBuffer, driverBuffers.indices) else s;
    var positioned := SetupState(indexed, scid, geometry.positions, ArrayBuffer, driverBuffers.positions);
    var t := SetupState(positioned, scid, geometry.normals, ArrayBuffer, driverBuffers.normals);
    assert indexed.hooks[..|s.hooks|] == s.hooks;
    assert positioned.hooks[..|s.hooks|] == indexed.hooks[..|indexed.hooks|][..|s.hooks|];
    assert t.hooks[..|s.hooks|] == positioned.hooks[..|positioned.hooks|][..|s.hooks|];
  }

  /**
    The buffer part of `GLES2Vertex::prepare`: set up the index buffer of a
    buffer geometry and bind it, set up the position and normal buffers,
    and bind each of those two attributes only when the shader has a
    location for it (not -1). Buffers already known are reused; no
    attribute call ever names location -1.
  */
  method SetupGeometry(registry: Registry, scid: string, geometry: Geometry, posLoc: int, normLoc: int,
                       driverBuffers: NewBuffers) returns (calls: seq<GlCall>)
    requires registry.Valid()
    modifies registry
    ensures registry.Valid()
    ensures registry.State() == GeometryState(old(registry.State()), scid, geometry, driverBuffers)
    ensures GeometryKeys(scid, geometry) <= registry.known.Keys
    ensures calls == BindCalls(scid, geometry, posLoc, normLoc, registry.known)
    ensures forall c :: c in calls && (c.EnableVertexAttribArray? || c.VertexAttribPointer?) ==> c.location != -1
  {
    var indexCalls := SetupIndices(registry, scid, geometry, driverBuffers.indices);
    ghost var indexed := registry.State();
    var attributeCalls := SetupAttributes(registry, scid, geometry, posLoc, normLoc, driverBuffers);
    calls := indexCalls + attributeCalls;
    assert calls == BindCalls(scid, geometry, posLoc, normLoc, registry.known) by {
      if geometry.indices.Some? {
        assert registry.known[scid + geometry.indices.value] == indexed.known[scid + geometry.indices.value];
      }
    }
  }

  /** The index buffer of a buffer geometry: set up, then bound. */
  method SetupIndices(registry: Registry, scid: string, geometry: Geometry, driverHandle: Handle) returns (calls: seq<GlCall>)
    requires registry.Valid()
    modifies registry
    ensures registry.Valid()
    ensures geometry.indices.Some? ==>
      && registry.State() == SetupState(old(registry.State()), scid, geometry.indices.value, ElementArrayBuffer, driverHandle)
      && calls == [BindBuffer(ElementArrayBuffer, registry.known[scid + geometry.indices.value])]
    ensures geometry.indices.None? ==> registry.State() == old(registry.State()) && calls == []
  {
    calls := [];
    if geometry.indices.Some? {
      registry.Setup(scid, geometry.indices.value, ElementArrayBuffer, driverHandle);
      calls := [BindBuffer(ElementArrayBuffer, registry.known[scid + geometry.indices.value])];
    }
  }

  /** The position and normal buffers: both set up, then each bound when
      the shader has a location for it. */
  method SetupAttributes(registry: Registry, scid: string, geometry: Geometry, posLoc: int, normLoc: int,
                         driverBuffers: NewBuffers) returns (calls: seq<GlCall>)
    requires registry.Valid()
    modifies registry
    ensures registry.Valid()
    ensures registry.State() == SetupState(SetupState(old(registry.State()), scid, geometry.positions, ArrayBuffer, driverBuffers.positions),
                                           scid, geometry.normals, ArrayBuffer, driverBuffers.normals)
    ensures scid + geometry.positions in registry.known && scid + geometry.normals in registry.known
    ensures calls == AttributeCalls(posLoc, registry.known[scid + geometry.positions])
                   + AttributeCalls(normLoc, registry.known[scid + geometry.normals])
  {
    registry.Setup(scid, geometry.positions, ArrayBuffer, driverBuffers.positions);
    registry.Setup(scid, geometry.normals, ArrayBuffer, driverBuffers.normals);
    calls := [];
    if posLoc != -1 {
      calls := calls + [BindBuffer(ArrayBuffer, registry.known[scid + geometry.positions]),
                        EnableVertexAttribArray(posLoc), VertexAttribPointer(posLoc, 3)];
    }
    if normLoc != -1 {
      calls := calls + [BindBuffer(ArrayBuffer, registry.known[scid + geometry.normals]),
                        EnableVertexAttribArray(normLoc), VertexAttribPointer(normLoc, 3)];
    }
  }
}
