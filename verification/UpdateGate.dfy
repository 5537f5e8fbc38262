/**
  One self-update at a time (update.go): ApplyNow claims a slot, works without the lock, and
  gives the slot back only if it did not get as far as launching the swap helper.
*/
module UpdateGate {
  import opened Options
  import opened SemVer
  import Text

  datatype Refusal = Disabled | Unsupported | InProgress | Network | NotNewer | MissingAsset | Checksum | Stage | Spawn

  datatype Decision = Accepted(tag: string) | Refused(why: Refusal)

  /** What the network and the host answered. */
  datatype Attempt = Attempt(
    release: Option<string>, assets: bool, downloads: bool, expected: Option<string>, actual: string,
    staged: bool, spawned: bool)

  /** strings.EqualFold, for hexadecimal digits. */
  predicate ChecksumMatches(a: Attempt) { a.expected.Some? && Text.Lower(a.expected.value) == Text.Lower(a.actual) }

  class UpdateChecker {
    const current: string
    const selfUpdate: bool
    var enabled: bool
    var applying: bool
    ghost var working: nat          // ApplyNow calls between claim and end
    ghost var helpers: seq<string>  // the releases helpers were launched for

    ghost predicate Valid() reads this {
      && working + |helpers| == (if applying then 1 else 0)
      && forall i :: 0 <= i < |helpers| ==> Newer(helpers[i], current)
    }

    constructor (current: string, selfUpdate: bool, enabled: bool)
      ensures Valid() && helpers == [] && working == 0
    {
      this.current, this.selfUpdate, this.enabled := current, selfUpdate, enabled;
      applying, working, helpers := false, 0, [];
    }

    /** ApplyNow up to beginApply. */
    method Begin() returns (refused: Option<Refusal>)
      requires Valid()
      modifies this
      ensures Valid() && helpers == old(helpers)
      ensures refused.None? <==> enabled && current != "" && current != "dev" && selfUpdate && !old(applying)
      ensures refused == Some(InProgress) ==> old(working) == 1 || |helpers| == 1
      ensures working == old(working) + if refused.None? then 1 else 0
    {
      if !enabled { return Some(Disabled); }
      if current == "" || current == "dev" || !selfUpdate { return Some(Unsupported); }
      if applying { return Some(InProgress); }
      applying, working := true, working + 1;
      refused := None;
    }

    /** The rest of it. */
    method Finish(a: Attempt) returns (d: Decision)
      requires Valid() && working > 0
      modifies this
      ensures Valid() && working == old(working) - 1
      ensures d.Accepted? <==>
                a.release.Some? && Newer(a.release.value, current) && a.assets && a.downloads
                && ChecksumMatches(a) && a.staged && a.spawned
      ensures d.Accepted? ==> a.release == Some(d.tag)
      ensures d == Refused(NotNewer) <==> a.release.Some? && !Newer(a.release.value, current)
      ensures d == Refused(Checksum) ==> !ChecksumMatches(a)
      ensures d.Accepted? ==> applying && helpers == old(helpers) + [d.tag]
      ensures d.Refused? ==> !applying && helpers == old(helpers)
    {
      d := Outcome(a);
      working := working - 1;
      if d.Accepted? { helpers := helpers + [d.tag]; } else { applying := false; }
    }

    function Outcome(a: Attempt): Decision
    {
      if a.release.None? then Refused(Network)
      else if !Newer(a.release.value, current) then Refused(NotNewer)
      else if !a.assets then Refused(MissingAsset)
      else if !a.downloads then Refused(Network)
      else if !ChecksumMatches(a) then Refused(Checksum)
      else if !a.staged then Refused(Stage)
      else if !a.spawned then Refused(Spawn)
      else Accepted(a.release.value)
    }

    /** In the life of an agent at most one helper is launched, for a newer release, and
        once it is, every further attempt is refused. */
    lemma OneHelper()
      requires Valid()
      ensures |helpers| <= 1 && (helpers != [] ==> applying && working == 0)
    {
    }
  }
}
