/** The `Port` record of PortService.swift with its derived `id` and
    `status`. */
module Ports {
  import opened Wrappers

  /** `PortStatus`. */
  datatype Status = Latest | Outdated | Unknown

  /** An installed port: its name, the installed version and, once the
      registry has answered, the latest published version. */
  datatype Port = Port(name: string, version: string, latestVersion: Option<string>)

  /** `Port.status`: compares the latest published version, when there is
      one, with the installed version.  An installed version newer than the
      published one also reads as outdated. */
  function StatusOf(p: Port): (s: Status)
    ensures s == Latest <==> p.latestVersion == Some(p.version)
    ensures s == Outdated <==> p.latestVersion.Some? && p.latestVersion.value != p.version
    ensures s == Unknown <==> p.latestVersion.None?
  {
    match p.latestVersion
    case Some(latest) => if latest == p.version then Latest else Outdated
    case None => Unknown
  }

  /** `Port.id`: the name and the installed version joined by `@`. */
  function Id(p: Port): (id: string)
    ensures |id| == |p.name| + 1 + |p.version|
    ensures id[..|p.name|] == p.name && id[|p.name|] == '@' && id[|p.name| + 1..] == p.version
  {
    p.name + "@" + p.version
  }

  /** Cuts an identifier at its first `@`: the inverse of `Id` on ports
      whose name has no `@`. */
  function SplitId(id: string): (parts: (string, string))
    ensures '@' !in parts.0
    ensures '@' in id ==> parts.0 + "@" + parts.1 == id
    ensures '@' !in id ==> parts == (id, "")
  {
    if |id| == 0 then ("", "")
    else if id[0] == '@' then ("", id[1..])
    else
      var rest := SplitId(id[1..]);
      assert id == [id[0]] + id[1..];
      ([id[0]] + rest.0, rest.1)
  }

  /** `Id` is undone by `SplitId` when the name has no `@`. */
  lemma IdRoundTrip(p: Port)
    requires '@' !in p.name
    ensures SplitId(Id(p)) == (p.name, p.version)
  {
    SplitIdAt(p.name, p.version);
  }

  lemma {:induction false} SplitIdAt(a: string, b: string)
    requires '@' !in a
    ensures SplitId(a + "@" + b) == (a, b)
    decreases |a|
  {
    var id := a + "@" + b;
    if |a| == 0 {
      assert id == "@" + b;
      assert id[1..] == b;
    } else {
      assert id[0] == a[0];
      assert id[1..] == a[1..] + "@" + b;
      assert '@' !in a[1..] by {
        assert forall c :: c in a[1..] ==> c in a;
      }
      SplitIdAt(a[1..], b);
      assert a == [a[0]] + a[1..];
    }
  }

  /** Two ports whose names have no `@` share an identifier exactly when
      they share name and installed version. */
  lemma IdInjective(p: Port, q: Port)
    requires '@' !in p.name && '@' !in q.name
    ensures Id(p) == Id(q) <==> p.name == q.name && p.version == q.version
  {
    if Id(p) == Id(q) {
      IdRoundTrip(p);
      IdRoundTrip(q);
    }
  }
}
