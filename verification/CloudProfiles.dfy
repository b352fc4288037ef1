/** The profiles the block holds: one for every cloud role granted. */
module CloudProfiles {
  import opened Wrappers
  import opened ConfigBlock
  import opened ConfigRuns

  function Concat(parts: seq<string>): string {
    if parts == [] then "" else Concat(parts[..|parts| - 1]) + parts[|parts| - 1]
  }

  /** `strings.Cut(s, ":")`. */
  function CutColon(s: string): Option<(string, string)> {
    var i := Index(s, ":");
    if i < 0 then None else Some((s[..i], s[i + 1..]))
  }

  /** The profile for one audience, when it names a cloud role: `aws:<account>:<role>`. */
  function Profile(audience: string, binary: string, issuer: string): Option<string> {
    if !(|audience| >= 4 && audience[..4] == "aws:") then None
    else
      match CutColon(audience[4..])
      case None => None
      case Some((account, role)) =>
        if account == "" || role == "" then None
        else Some(Concat(["\n[profile ", role, "@", account, "]\n", "credential_process = ", binary,
                          " aws --audience ", audience, " --issuer ", issuer, "\n"]))
  }

  /** The audience names this role of this account. */
  ghost predicate CloudRole(audience: string, account: string, role: string) {
    account != "" && ':' !in account && role != "" && audience == "aws:" + (account + (":" + role))
  }

  lemma NoColonBefore(account: string, rest: string)
    requires ':' !in account
    ensures forall i :: At(account + rest, ":", i) ==> i >= |account|
  {
    forall i | At(account + rest, ":", i)
      ensures i >= |account|
    {
      assert (account + rest)[i] == (account + rest)[i..i + 1][0];
    }
  }

  lemma CutAtColon(account: string, role: string)
    requires ':' !in account
    ensures CutColon(account + (":" + role)) == Some((account, role))
  {
    var s := account + (":" + role);
    Parts(account, ":" + role);
    AfterMarker(account, ":", role);
    assert At(s, ":", |account|);
    IndexIsFirst(s, ":");
    NoColonBefore(account, ":" + role);
  }

  /** The profile of an account's role, line by line. */
  lemma ProfileMeans(audience: string, account: string, role: string, binary: string, issuer: string)
    requires CloudRole(audience, account, role)
    ensures Profile(audience, binary, issuer) ==
      Some("\n[profile " + role + "@" + account + "]\n"
           + "credential_process = " + binary + " aws --audience " + audience + " --issuer " + issuer + "\n")
  {
    assert audience[..4] == "aws:" && audience[4..] == account + (":" + role);
    CutAtColon(account, role);
    var parts := ["\n[profile ", role, "@", account, "]\n", "credential_process = ", binary,
                  " aws --audience ", audience, " --issuer ", issuer, "\n"];
    TwelveParts(parts);
  }

  lemma TwelveParts(p: seq<string>)
    requires |p| == 12
    ensures Concat(p) == p[0] + p[1] + p[2] + p[3] + p[4] + p[5] + p[6] + p[7] + p[8] + p[9] + p[10] + p[11]
  {
    forall k: nat | k < 12
      ensures Concat(p[..k + 1]) == Concat(p[..k]) + p[k]
    {
      assert p[..k + 1][..k] == p[..k];
    }
    assert p[..12] == p;
    assert "" + p[0] == p[0];
    assert Concat(p[..3]) == p[0] + p[1] + p[2];
    assert Concat(p[..6]) == p[0] + p[1] + p[2] + p[3] + p[4] + p[5];
    assert Concat(p[..9]) == p[0] + p[1] + p[2] + p[3] + p[4] + p[5] + p[6] + p[7] + p[8];
  }

  /** Only an account's role has a profile. */
  lemma OnlyRolesHaveProfiles(audience: string, binary: string, issuer: string)
    requires Profile(audience, binary, issuer).Some?
    ensures exists account, role :: CloudRole(audience, account, role)
  {
    var rest := audience[4..];
    var (account, role) := CutColon(rest).value;
    var i := Index(rest, ":");
    IndexIsFirst(rest, ":");
    if ':' in account {
      var k :| 0 <= k < i && rest[k] == ':';
      assert At(rest, ":", k);
    }
    assert rest == account + (":" + role);
    assert CloudRole(audience, account, role);
  }

  function ProfilesOf(audiences: seq<string>, binary: string, issuer: string): string {
    if audiences == [] then ""
    else
      var before, last := ProfilesOf(audiences[..|audiences| - 1], binary, issuer), audiences[|audiences| - 1];
      before + (if Profile(last, binary, issuer).Some? then Profile(last, binary, issuer).value else "")
  }

  predicate AnyRole(audiences: seq<string>, binary: string, issuer: string) {
    exists i :: 0 <= i < |audiences| && Profile(audiences[i], binary, issuer).Some?
  }

  /** The file after a run for these audiences; untouched when none of them is a cloud role. */
  function Configured(existing: string, audiences: seq<string>, binary: string, issuer: string): string {
    if AnyRole(audiences, binary, issuer)
    then Written(existing, ProfilesOf(audiences, binary, issuer), MARKER, END_MARKER)
    else existing
  }

  method AwsConfig(existing: string, audiences: seq<string>, binary: string, issuer: string) returns (body: string)
    ensures body == Configured(existing, audiences, binary, issuer)
    ensures (forall i, account, role :: 0 <= i < |audiences| ==> !CloudRole(audiences[i], account, role)) ==> body == existing
    ensures (exists i, account, role :: 0 <= i < |audiences| && CloudRole(audiences[i], account, role)) ==>
      body == Written(existing, ProfilesOf(audiences, binary, issuer), MARKER, END_MARKER)
  {
    RolesHaveProfiles(audiences, binary, issuer);
    var profiles, written := "", 0;
    for i := 0 to |audiences|
      invariant profiles == ProfilesOf(audiences[..i], binary, issuer)
      invariant written >= 0
      invariant written > 0 <==> exists k :: 0 <= k < i && Profile(audiences[k], binary, issuer).Some?
    {
      assert audiences[..i + 1][..i] == audiences[..i];
      var profile := Profile(audiences[i], binary, issuer);
      if profile.None? {
        continue;
      }
      profiles := profiles + profile.value;
      written := written + 1;
    }
    assert audiences[..|audiences|] == audiences;
    if written == 0 {
      return existing;
    }
    body := StripBlock(existing, MARKER, END_MARKER);
    body := body + Block(profiles, MARKER, END_MARKER);
  }

  lemma RolesHaveProfiles(audiences: seq<string>, binary: string, issuer: string)
    ensures AnyRole(audiences, binary, issuer) <==>
      exists i, account, role :: 0 <= i < |audiences| && CloudRole(audiences[i], account, role)
  {
    if AnyRole(audiences, binary, issuer) {
      var i :| 0 <= i < |audiences| && Profile(audiences[i], binary, issuer).Some?;
      OnlyRolesHaveProfiles(audiences[i], binary, issuer);
    }
    forall i, account, role | 0 <= i < |audiences| && CloudRole(audiences[i], account, role)
      ensures AnyRole(audiences, binary, issuer)
    {
      ProfileMeans(audiences[i], account, role, binary, issuer);
    }
  }

  lemma {:induction false} ConcatHasNoHash(parts: seq<string>)
    requires forall i :: 0 <= i < |parts| ==> '#' !in parts[i]
    ensures '#' !in Concat(parts)
  {
    if parts != [] {
      ConcatHasNoHash(parts[..|parts| - 1]);
    }
  }

  lemma ProfileHasNoHash(audience: string, binary: string, issuer: string)
    requires '#' !in audience && '#' !in binary && '#' !in issuer && Profile(audience, binary, issuer).Some?
    ensures '#' !in Profile(audience, binary, issuer).value
  {
    var (account, role) := CutColon(audience[4..]).value;
    ConcatHasNoHash(["\n[profile ", role, "@", account, "]\n", "credential_process = ", binary,
                     " aws --audience ", audience, " --issuer ", issuer, "\n"]);
  }

  lemma {:induction false} ProfilesHaveNoHash(audiences: seq<string>, binary: string, issuer: string)
    requires '#' !in binary && '#' !in issuer && forall a :: a in audiences ==> '#' !in a
    ensures '#' !in ProfilesOf(audiences, binary, issuer)
  {
    if audiences != [] {
      var last := audiences[|audiences| - 1];
      ProfilesHaveNoHash(audiences[..|audiences| - 1], binary, issuer);
      if Profile(last, binary, issuer).Some? {
        ProfileHasNoHash(last, binary, issuer);
      }
    }
  }

  /** One audience after another. */
  lemma {:induction false} ProfilesInParts(a: seq<string>, b: seq<string>, binary: string, issuer: string)
    ensures ProfilesOf(a + b, binary, issuer) == ProfilesOf(a, binary, issuer) + ProfilesOf(b, binary, issuer)
  {
    if b == [] {
      assert a + b == a;
      assert ProfilesOf(a, binary, issuer) + "" == ProfilesOf(a, binary, issuer);
    } else {
      var before, last := b[..|b| - 1], b[|b| - 1];
      ProfilesInParts(a, before, binary, issuer);
      assert (a + b)[..|a + b| - 1] == a + before;
      assert (a + b)[|a + b| - 1] == last;
    }
  }

  lemma ProfileOfOne(audience: string, binary: string, issuer: string)
    ensures ProfilesOf([audience], binary, issuer) ==
      if Profile(audience, binary, issuer).Some? then Profile(audience, binary, issuer).value else ""
  {
    assert [audience][..0] == [];
    assert ProfilesOf([], binary, issuer) == "";
  }

  lemma NoHashNoMarker(s: string, m: string)
    requires '#' !in s && Headed(m)
    ensures NotIn(s, m)
  {
    forall i | At(s, m, i)
      ensures false
    {
      AtHead(s, m, i);
    }
  }

  /** When nothing that goes into a profile has a `#` in it, configuring again replaces what the last run
      wrote: nothing of it remains, and configuring twice for the same roles is configuring once. */
  lemma ConfiguringAgainReplaces(existing: string, before: seq<string>, now: seq<string>, binary: string, issuer: string)
    requires NotIn(Stripped(existing, MARKER, END_MARKER), MARKER)
    requires '#' !in binary && '#' !in issuer && forall a :: a in before ==> '#' !in a
    requires AnyRole(now, binary, issuer)
    ensures Configured(Configured(existing, before, binary, issuer), now, binary, issuer)
      == Configured(existing, now, binary, issuer)
  {
    AwsMarkers();
    var p, q := ProfilesOf(before, binary, issuer), ProfilesOf(now, binary, issuer);
    ProfilesHaveNoHash(before, binary, issuer);
    NoHashNoMarker(p, END_MARKER);
    SecondRunReplacesFirst(existing, p, q, MARKER, END_MARKER);
  }
}
