/**
 * The `types.Qualifier` built by `newInfoResolver`: the package prefix that
 * generated code writes before a name declared in `other`, when the code is
 * placed in package `pkg`. `pathToName` is one map for the whole package
 * (import path to local name, "." for a dot-import), collected from the
 * package names of every file.
 */
module Qualifier {
  import opened GoTypes

  /** Go's `m[k]` on a map of strings: the zero value "" for a missing key. */
  function Index(m: map<string, string>, k: string): (v: string)
    ensures k in m ==> v == m[k]
    ensures k !in m ==> v == ""
  {
    if k in m then m[k] else ""
  }

  function Qualify(pathToName: map<string, string>, pkg: Package, other: Package): string
  {
    if pkg == other || Index(pathToName, other.path) == "." then ""
    else if other.path in pathToName then pathToName[other.path]
    else other.name
  }

  /** The resolver keeps only its qualifier. */
  datatype InfoResolver = InfoResolver(qualifier: Package -> string)

  function NewInfoResolver(pathToName: map<string, string>, pkg: Package): (r: InfoResolver)
    ensures forall other :: r.qualifier(other) == Qualify(pathToName, pkg, other)
  {
    InfoResolver(other => Qualify(pathToName, pkg, other))
  }

  /** Names in the same package, and names reached through a dot-import, are written unqualified. */
  lemma UnqualifiedCases(pathToName: map<string, string>, pkg: Package, other: Package)
    requires other == pkg || (other.path in pathToName && pathToName[other.path] == ".")
    ensures Qualify(pathToName, pkg, other) == ""
  {
  }

  /** A package imported under a recorded local name is written with that name. */
  lemma RecordedName(pathToName: map<string, string>, pkg: Package, other: Package)
    requires other != pkg && other.path in pathToName && pathToName[other.path] != "."
    ensures Qualify(pathToName, pkg, other) == pathToName[other.path]
  {
  }

  /** A package with no recorded import falls back to its own name. */
  lemma DefaultName(pathToName: map<string, string>, pkg: Package, other: Package)
    requires other != pkg && other.path !in pathToName
    ensures Qualify(pathToName, pkg, other) == other.name
  {
  }

  /**
   * With non-empty local and package names (Go identifiers are never empty),
   * a name is unqualified exactly when it is local or dot-imported, and the
   * dot marker itself is never used as a qualifier.
   */
  lemma QualifyEmptyIff(pathToName: map<string, string>, pkg: Package, other: Package)
    requires forall p :: p in pathToName ==> pathToName[p] != ""
    requires other.name != "" && other.name != "."
    ensures Qualify(pathToName, pkg, other) == "" <==>
              other == pkg || (other.path in pathToName && pathToName[other.path] == ".")
    ensures Qualify(pathToName, pkg, other) != "."
  {
  }
}
