/**
 What the package manager's manifests and directories hold, shared by the dependency walk,
 the installer and the manifest reader and writer.
 */
module Packages {
  import opened Wrappers

  /** What identifies a package: `group:artifactId:version`. */
  datatype Coord = Coord(group: string, artifact: string, version: string)

  datatype Dependency = Dependency(coord: Coord, url: Option<string>, repository: Option<string>, sha256: Option<string>)

  datatype Repository = Repository(id: string, url: string)

  datatype Package = Package(name: string, version: string, description: string)

  datatype Manifest = Manifest(package: Option<Package>, dependencies: seq<Dependency>, repositories: seq<Repository>)

  /** A single plain path segment. */
  predicate Segment(s: string) {
    s != "" && s != "." && s != ".." && '/' !in s && '\\' !in s && '\0' !in s
  }

  predicate SegmentsOk(c: Coord) { Segment(c.group) && Segment(c.artifact) && Segment(c.version) }

  /** A directory of the shared cache. */
  datatype Place = Place(repository: string, coord: Coord)

  function RepositoryId(d: Dependency): string {
    if d.repository.None? then "central" else d.repository.value
  }

  predicate PathOk(d: Dependency) { Segment(RepositoryId(d)) && SegmentsOk(d.coord) }

  function PlaceOf(d: Dependency): Place { Place(RepositoryId(d), d.coord) }
}
