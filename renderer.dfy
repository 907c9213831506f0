/**
  The plugin registry and render-item defaults of `GLES2Renderer`.

  A render plugin is a callback keyed by a UUID, held in one of two maps:
  the plugins run before the scene is rendered and those run after it.
  Callbacks are opaque here; a `Callback` value stands for one callback's
  identity.
*/
module Renderer {

  type Uuid = string

  /** The identity of a plugin callback. */
  type Callback = nat

  /** A reference to a mesh handed to the render lists. */
  type ObjectRef = nat

  /** An entry of the opaque or transparent render list. `z` is a float in
      the renderer; the model keeps it as a real. */
  datatype RenderItem = RenderItem(mesh: ObjectRef, z: real, group: int)

  /** The constructor of a render item, whose group defaults to -1 (no group). */
  function NewRenderItem(mesh: ObjectRef, z: real, group: int := -1): (item: RenderItem)
    ensures item.mesh == mesh && item.z == z && item.group == group
  {
    RenderItem(mesh, z, group)
  }

  /** A render item built without naming a group has group -1. */
  lemma RenderItemDefaultGroup(mesh: ObjectRef, z: real)
    ensures NewRenderItem(mesh, z).group == -1
    ensures NewRenderItem(mesh, z) == NewRenderItem(mesh, z, -1)
  {
  }

  /** The map after registering `callback` under `id`: the id now maps to
      the new callback, replacing any earlier one, and every other entry is
      kept as it was. */
  function Registered(plugins: map<Uuid, Callback>, id: Uuid, callback: Callback): (r: map<Uuid, Callback>)
    ensures id in r && r[id] == callback
    ensures r.Keys == plugins.Keys + {id}
    ensures forall k :: k in plugins && k != id ==> r[k] == plugins[k]
  {
    plugins[id := callback]
  }

  /** The map after unregistering `id`: the id is gone, every other entry
      is kept, and an absent id leaves the map exactly as it was. */
  function Unregistered(plugins: map<Uuid, Callback>, id: Uuid): (r: map<Uuid, Callback>)
    ensures id !in r
    ensures r.Keys == plugins.Keys - {id}
    ensures forall k :: k in r ==> r[k] == plugins[k]
    ensures id !in plugins ==> r == plugins
  {
    if id in plugins then plugins - {id} else plugins
  }

  /** Registering then unregistering an id leaves the id absent, and the
      other entries as they were before the registration. */
  lemma RegisterThenUnregister(plugins: map<Uuid, Callback>, id: Uuid, callback: Callback)
    ensures id !in Unregistered(Registered(plugins, id, callback), id)
    ensures Unregistered(Registered(plugins, id, callback), id) == Unregistered(plugins, id)
    ensures id !in plugins ==> Unregistered(Registered(plugins, id, callback), id) == plugins
  {
    var r := Unregistered(Registered(plugins, id, callback), id);
    assert r.Keys == Unregistered(plugins, id).Keys;
  }

  /** A second registration under the same id overwrites the first. */
  lemma RegisterOverwrites(plugins: map<Uuid, Callback>, id: Uuid, first: Callback, second: Callback)
    ensures Registered(Registered(plugins, id, first), id, second) == Registered(plugins, id, second)
  {
    var r := Registered(Registered(plugins, id, first), id, second);
    assert r.Keys == Registered(plugins, id, second).Keys;
  }

  /** Unregistering is idempotent: a second unregistration changes nothing. */
  lemma UnregisterIdempotent(plugins: map<Uuid, Callback>, id: Uuid)
    ensures Unregistered(Unregistered(plugins, id), id) == Unregistered(plugins, id)
  {
  }

  /** The plugin state of a `GLES2Renderer`. */
  class PluginRenderer {
    var sortObjects: bool
    var prePlugins: map<Uuid, Callback>
    var postPlugins: map<Uuid, Callback>

    /** A new renderer sorts its render lists and has no plugins. */
    constructor ()
      ensures sortObjects
      ensures prePlugins == map[] && postPlugins == map[]
    {
      sortObjects := true;
      prePlugins := map[];
      postPlugins := map[];
    }

    method RegisterPreRenderPlugin(id: Uuid, callback: Callback)
      modifies this
      ensures prePlugins == Registered(old(prePlugins), id, callback)
      ensures postPlugins == old(postPlugins) && sortObjects == old(sortObjects)
    {
      prePlugins := prePlugins[id := callback];
    }

    method RegisterPostRenderPlugin(id: Uuid, callback: Callback)
      modifies this
      ensures postPlugins == Registered(old(postPlugins), id, callback)
      ensures prePlugins == old(prePlugins) && sortObjects == old(sortObjects)
    {
      postPlugins := postPlugins[id := callback];
    }

    method UnregisterPreRenderPlugin(id: Uuid)
      modifies this
      ensures prePlugins == Unregistered(old(prePlugins), id)
      ensures postPlugins == old(postPlugins) && sortObjects == old(sortObjects)
    {
      if id in prePlugins {
        prePlugins := prePlugins - {id};
      }
    }

    method UnregisterPostRenderPlugin(id: Uuid)
      modifies this
      ensures postPlugins == Unregistered(old(postPlugins), id)
      ensures prePlugins == old(prePlugins) && sortObjects == old(sortObjects)
    {
      if id in postPlugins {
        postPlugins := postPlugins - {id};
      }
    }
  }
}
