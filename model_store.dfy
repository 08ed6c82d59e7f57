/**
 * The models directory, data/models, shared by the trainer (which writes
 * artifacts into it) and the app (which picks the newest one). A directory
 * listing is a sequence of entries in os.listdir order; each entry has a name,
 * a modification time and what joblib.load makes of it.
 */
module ModelStore {
  import opened Wrappers
  import opened Text

  /**
   * A fitted regressor. Its internals are not modelled: the forest the trainer
   * fitted is identified by the training table it was fitted on.
   */
  datatype Regressor = Regressor(features: seq<seq<real>>, targets: seq<real>)

  /** One directory entry: joblib.load yields the regressor, or None when loading raises. */
  datatype ModelFile = ModelFile(name: string, mtime: int, payload: Option<Regressor>)

  const PklSuffix: string := ".pkl"

  /** The app's filter on listed names: f.endswith('.pkl'). */
  predicate IsPkl(name: string) {
    EndsWith(name, PklSuffix)
  }

  /** A directory never lists one name twice. */
  predicate DistinctNames(dir: seq<ModelFile>) {
    forall i, j :: 0 <= i < j < |dir| ==> dir[i].name != dir[j].name
  }

  /** The listing after writing `f`: an entry of the same name is overwritten in place, otherwise the new entry is added. */
  function Store(dir: seq<ModelFile>, f: ModelFile): (r: seq<ModelFile>)
    requires DistinctNames(dir)
    ensures DistinctNames(r)
    ensures f in r
    ensures forall g :: g in r ==> g == f || (g in dir && g.name != f.name)
    ensures forall g :: g in dir && g.name != f.name ==> g in r
  {
    if dir == [] then [f]
    else if dir[0].name == f.name then [f] + dir[1..]
    else [dir[0]] + Store(dir[1..], f)
  }
}
