// Which containers a subscription or an alert rule is about.
module ContainerSpecs {

  const PROJECT_LABELS := ["com.docker.compose.project", "io.podman.compose.project"]

  // A label the container does not carry reads as "".
  function Label(labels: map<string, string>, key: string): string {
    if key in labels then labels[key] else ""
  }

  // Engines report container names with a leading slash.
  function TrimSlash(name: string): string {
    if name != [] && name[0] == '/' then name[1..] else name
  }

  lemma TrimSlashExactly(name: string)
    ensures TrimSlash("/" + name) == name
    ensures name == "" || name[0] != '/' ==> TrimSlash(name) == name
  {}

  // Empty dimensions match everything; hosts are ANDed with names OR projects.
  datatype ContainerSpec = ContainerSpec(hosts: seq<string>, containers: seq<string>, projects: seq<string>) {
    predicate Matches(host: string, name: string, labels: map<string, string>) {
      && (hosts == [] || host in hosts)
      && (|| (containers == [] && projects == [])
          || name in containers
          || exists p, k :: p in projects && k in PROJECT_LABELS && Label(labels, k) == p)
    }
  }

  // The compose project of a container, by the label an engine writes; "" without it.
  function DockerProject(labels: map<string, string>): string {
    if "com.docker.compose.project" in labels then labels["com.docker.compose.project"] else ""
  }

  function PodmanProject(labels: map<string, string>): string {
    if "io.podman.compose.project" in labels then labels["io.podman.compose.project"] else ""
  }

  // The hosts bound what is chosen; within them the containers and the projects add up.
  lemma MatchesExactly(spec: ContainerSpec, host: string, name: string, labels: map<string, string>)
    ensures spec.Matches(host, name, labels) <==>
      && (spec.hosts == [] || host in spec.hosts)
      && (|| (spec.containers == [] && spec.projects == [])
          || name in spec.containers
          || DockerProject(labels) in spec.projects || PodmanProject(labels) in spec.projects)
  {
    assert Label(labels, PROJECT_LABELS[0]) == DockerProject(labels);
    assert Label(labels, PROJECT_LABELS[1]) == PodmanProject(labels);
    if exists p :: p in spec.projects && (p == DockerProject(labels) || p == PodmanProject(labels)) {
      var p :| p in spec.projects && (p == DockerProject(labels) || p == PodmanProject(labels));
      var k := if p == DockerProject(labels) then PROJECT_LABELS[0] else PROJECT_LABELS[1];
      assert k in PROJECT_LABELS && Label(labels, k) == p;
    }
  }
}
