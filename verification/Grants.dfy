/** The one spelling of a grant: `<scope>:<thing>:<role>`. */
module Grants {
  import opened Wrappers
  import opened Text

  const SEPARATOR := ':'

  datatype Grant = Grant(scope: string, thing: string, role: string)

  function Name(g: Grant): string {
    g.scope + [SEPARATOR] + g.thing + [SEPARATOR] + g.role
  }

  /** A name is a grant when it has exactly three segments and none is empty. */
  function SplitGroup(name: string): Option<Grant> {
    var parts := Split(name, SEPARATOR);
    if |parts| != 3 then None
    else if parts[0] == "" || parts[1] == "" || parts[2] == "" then None
    else Some(Grant(parts[0], parts[1], parts[2]))
  }

  predicate Segment(s: string) {
    s != "" && SEPARATOR !in s
  }

  /** Reading a name back gives the segments it was written from, and does so exactly when each is a
      segment: no other three strings are ever mistaken for a grant. */
  lemma SplitName(g: Grant)
    ensures SplitGroup(Name(g)) ==
      if Segment(g.scope) && Segment(g.thing) && Segment(g.role) then Some(g) else None
  {
    SplitJoined(g.scope + [SEPARATOR] + g.thing, g.role, SEPARATOR);
    SplitJoined(g.scope, g.thing, SEPARATOR);
  }

  /** A name that reads as a grant is that grant's name. */
  lemma NameSplit(name: string)
    requires SplitGroup(name).Some?
    ensures var g := SplitGroup(name).value;
      name == Name(g) && Segment(g.scope) && Segment(g.thing) && Segment(g.role)
  {
    SplitInverts(name, SEPARATOR);
    var parts := Split(name, SEPARATOR);
    assert JoinStrings(parts, [SEPARATOR]) == parts[0] + [SEPARATOR] + JoinStrings(parts[1..], [SEPARATOR]);
    assert JoinStrings(parts[1..], [SEPARATOR]) == parts[1] + [SEPARATOR] + JoinStrings(parts[1..][1..], [SEPARATOR]);
    assert parts[1..][1..] == [parts[2]];
  }
}
