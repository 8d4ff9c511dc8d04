/** Manifests and resource identity. */
module Manifests {
  import opened Common

  datatype Gvk = Gvk(group: string, version: string, kind: string)

  /** `B` is the body: canonical bytes for the planner, the parsed tree for the differ. */
  datatype Manifest<+B> = Manifest(gvk: Gvk, namespace: Option<string>, name: string, body: B)

  /** GVK plus namespace and name: what identifies a resource in a cluster. */
  datatype ResourceRef = ResourceRef(gvk: Gvk, namespace: Option<string>, name: string)

  function RefOf<B>(m: Manifest<B>): ResourceRef
  {
    ResourceRef(m.gvk, m.namespace, m.name)
  }
}
