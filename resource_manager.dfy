/**
 * `Resource_Manager` of maze_game/resource_manager.js: a keyed store of
 * engine resources with get-or-insert, set with override and dispose rules,
 * and disposal by id.
 *
 * `#get_type_source` tests the type-name constants, not the type argument,
 * and the first constant is a non-empty string, so every typed call lands in
 * the renderer map; the other three maps are never touched. Resources are
 * engine objects, modelled by an identity; the model records each
 * `.dispose()` call in a log instead of performing it.
 */
module Resources {
  import opened Wrappers

  /** An engine resource (a renderer, material, geometry or texture object). */
  datatype Resource = Resource(handle: nat)

  datatype Kind = RendererKind | MaterialKind | GeometryKind | TextureKind

  /** The `type` argument of `dispose`: a type key, or the map `set_resource` passes in its place. */
  datatype TypeArg = TypeKey(kind: Kind) | SourceMap

  /** `KEYS.ALL`. */
  const AllKey: string := "*"

  /** `KEYS.TYPES`, in the order `#get_type_source` tests them. */
  const RendererName: string := "renderer"
  const MaterialName: string := "material"
  const GeometryName: string := "geometry"
  const TextureName: string := "texture"

  datatype Store = Renderers | Materials | Geometries | Textures

  /** `#get_type_source`: the first map whose type-name constant is truthy. */
  function GetTypeSource(t: TypeArg): (s: Store)
    ensures s == Renderers
  {
    if RendererName != "" then Renderers
    else if MaterialName != "" then Materials
    else if GeometryName != "" then Geometries
    else Textures
  }

  class ResourceManager {
    var renderers: map<string, Resource>
    var materials: map<string, Resource>
    var geometries: map<string, Resource>
    var textures: map<string, Resource>
    /** The resources whose `.dispose()` has been called, in call order. */
    var disposed: seq<Resource>

    constructor()
      ensures renderers == map[] && materials == map[] && geometries == map[] && textures == map[]
      ensures disposed == []
    {
      renderers, materials, geometries, textures := map[], map[], map[], map[];
      disposed := [];
    }

    function Source(s: Store): (m: map<string, Resource>)
      reads this
    {
      match s
      case Renderers => renderers
      case Materials => materials
      case Geometries => geometries
      case Textures => textures
    }

    /** `has_resource`: whether the id is in the map the type selects, which is always the renderer map. */
    predicate HasResource(id: string, t: TypeArg)
      reads this
      ensures HasResource(id, t) <==> id in renderers
    {
      id in Source(GetTypeSource(t))
    }

    /**
     * `dispose`: a present entry is disposed and removed. For the renderer
     * type the source first calls an undeclared `renderer`; that call fails
     * (`ok` is false) before anything changes.
     */
    method Dispose(id: string, t: TypeArg) returns (ok: bool)
      modifies this
      ensures ok <==> !(id in old(renderers) && t == TypeKey(RendererKind))
      ensures ok && id in old(renderers) ==>
        renderers == old(renderers) - {id} && disposed == old(disposed) + [old(renderers)[id]]
      ensures !ok || id !in old(renderers) ==> renderers == old(renderers) && disposed == old(disposed)
      ensures materials == old(materials) && geometries == old(geometries) && textures == old(textures)
    {
      var source := GetTypeSource(t);
      if id in renderers {
        if t == TypeKey(RendererKind) {
          return false;
        }
        disposed := disposed + [renderers[id]];
        renderers := renderers - {id};
      }
      ok := true;
    }

    /**
     * `set_resource`: ignores a null resource and the id "*"; a new id is
     * stored; an existing id is replaced only with `override`, after the old
     * value is disposed when `dispose` is set.
     */
    method SetResource(id: string, resource: Option<Resource>, t: TypeArg, override: bool, dispose: bool)
      modifies this
      ensures resource.None? || id == AllKey ==> renderers == old(renderers) && disposed == old(disposed)
      ensures resource.Some? && id != AllKey && id !in old(renderers) ==>
        renderers == old(renderers)[id := resource.value] && disposed == old(disposed)
      ensures resource.Some? && id != AllKey && id in old(renderers) && !override ==>
        renderers == old(renderers) && disposed == old(disposed)
      ensures resource.Some? && id != AllKey && id in old(renderers) && override ==>
        renderers == old(renderers)[id := resource.value]
        && disposed == old(disposed) + (if dispose then [old(renderers)[id]] else [])
      ensures materials == old(materials) && geometries == old(geometries) && textures == old(textures)
    {
      var source := GetTypeSource(t);
      if resource.Some? && id != AllKey {
        if id in renderers {
          if override {
            if dispose {
              var _ := Dispose(id, SourceMap);
            }
            renderers := renderers[id := resource.value];
          }
          return;
        }
        renderers := renderers[id := resource.value];
      }
    }

    /** `set_renderer`, `set_material`, `set_geometry`, `set_texture`: `set_resource` with the kind's type key. */
    method SetOfKind(kind: Kind, id: string, resource: Option<Resource>, override: bool, dispose: bool)
      modifies this
      ensures resource.None? || id == AllKey ==> renderers == old(renderers) && disposed == old(disposed)
      ensures resource.Some? && id != AllKey && id !in old(renderers) ==>
        renderers == old(renderers)[id := resource.value] && disposed == old(disposed)
      ensures resource.Some? && id != AllKey && id in old(renderers) && !override ==>
        renderers == old(renderers) && disposed == old(disposed)
      ensures resource.Some? && id != AllKey && id in old(renderers) && override ==>
        renderers == old(renderers)[id := resource.value]
        && disposed == old(disposed) + (if dispose then [old(renderers)[id]] else [])
      ensures materials == old(materials) && geometries == old(geometries) && textures == old(textures)
    {
      SetResource(id, resource, TypeKey(kind), override, dispose);
    }

    /**
     * `get_resource`: a present id yields its value and changes nothing; an
     * absent id yields the fallback, which is stored when `cache` is set and
     * the fallback is not null.
     */
    method GetResource(id: string, t: TypeArg, fallback: Option<Resource>, cache: bool) returns (r: Option<Resource>)
      modifies this
      ensures id in old(renderers) ==> r == Some(old(renderers)[id]) && renderers == old(renderers)
      ensures id !in old(renderers) ==>
        r == fallback
        && renderers == (if cache && fallback.Some? then old(renderers)[id := fallback.value] else old(renderers))
      ensures disposed == old(disposed)
      ensures materials == old(materials) && geometries == old(geometries) && textures == old(textures)
    {
      var source := GetTypeSource(t);
      if id in renderers {
        return Some(renderers[id]);
      }
      if cache && fallback.Some? {
        renderers := renderers[id := fallback.value];
      }
      r := fallback;
    }

    /** `get_renderer`, `get_material`, `get_geometry`, `get_texture`. */
    method GetOfKind(kind: Kind, id: string, fallback: Option<Resource>, cache: bool) returns (r: Option<Resource>)
      modifies this
      ensures id in old(renderers) ==> r == Some(old(renderers)[id]) && renderers == old(renderers)
      ensures id !in old(renderers) ==>
        r == fallback
        && renderers == (if cache && fallback.Some? then old(renderers)[id := fallback.value] else old(renderers))
      ensures disposed == old(disposed)
      ensures materials == old(materials) && geometries == old(geometries) && textures == old(textures)
    {
      r := GetResource(id, TypeKey(kind), fallback, cache);
    }

    /**
     * `dispose_renderers`, `dispose_materials`, `dispose_geometries`,
     * `dispose_textures` with their default id "*": `Resource_Manager.ALL_KEY`
     * is not defined, so "*" is treated as an ordinary id.
     */
    method DisposeOfKind(kind: Kind, id: string) returns (ok: bool)
      modifies this
      ensures ok <==> !(id in old(renderers) && kind == RendererKind)
      ensures ok ==>
        renderers == old(renderers) - {id}
        && disposed == old(disposed) + (if id in old(renderers) then [old(renderers)[id]] else [])
      ensures !ok ==> renderers == old(renderers) && disposed == old(disposed)
      ensures materials == old(materials) && geometries == old(geometries) && textures == old(textures)
    {
      ok := Dispose(id, TypeKey(kind));
    }

    /**
     * `dispose_all`: the geometry, material and texture passes each dispose
     * the entry "*" (only the first finds it); the renderer pass then finds
     * nothing, so it never reaches the undeclared `renderer`.
     */
    method DisposeAll(includeRenderers: bool) returns (ok: bool)
      modifies this
      ensures ok
      ensures renderers == old(renderers) - {AllKey}
      ensures disposed == old(disposed) + (if AllKey in old(renderers) then [old(renderers)[AllKey]] else [])
      ensures materials == old(materials) && geometries == old(geometries) && textures == old(textures)
    {
      ok := DisposeOfKind(GeometryKind, AllKey);
      ok := DisposeOfKind(MaterialKind, AllKey);
      ok := DisposeOfKind(TextureKind, AllKey);
      if includeRenderers {
        ok := DisposeOfKind(RendererKind, AllKey);
      }
    }
  }

  /** All four typed APIs share one store: an id is present for one type exactly when it is for any other. */
  lemma SharedStore(rm: ResourceManager, id: string, t: TypeArg, t': TypeArg)
    ensures rm.HasResource(id, t) <==> rm.HasResource(id, t')
  {
  }
}
