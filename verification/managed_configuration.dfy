/** Resolving a runtime configuration from a store of managed revisions that keeps being published. */
module ManagedConfiguration {
  import opened Options
  import opened PythonText

  /* ---- the store ---- */

  datatype Status = Draft | Validated | Active | Superseded

  predicate Published(s: Status) {
    s == Active || s == Superseded
  }

  /** One row. readable: the stored columns still decode into a revision. */
  datatype Revision = Revision(
    version: nat, status: Status, schema: nat, digest: string, document: string,
    base: Option<string>, readable: bool)

  /** activated: the authority row that the first publication inserts and nothing deletes. */
  datatype Store = Store(revisions: map<string, Revision>, activated: bool)

  /** What is fixed outside the store: the bootstrap file's database locator, whether the file is the
      minimal management bootstrap and what it loads as; the digest of a canonical document; and the
      managed loader. None stands for a value that cannot be produced. */
  datatype Deployment = Deployment(
    locator: Option<string>, minimal: bool, bootstrap: Option<string>,
    digestOf: string -> string, load: string -> Option<string>)

  const SCHEMA: nat := 1

  function Actives(s: Store): set<string> {
    set i | i in s.revisions && s.revisions[i].status == Active
  }

  predicate Intact(d: Deployment, r: Revision) {
    r.readable && d.digestOf(r.document) == r.digest
  }

  datatype Edit =
    | Create(id: string, revision: Revision)
    | Update(id: string, expected: nat, revision: Revision)
    | Activate(id: string, expected: nat)

  /** The Draft's base must be the current Active, or nothing when there is none or it is damaged. */
  predicate BaseIsCurrent(d: Deployment, s: Store, base: Option<string>) {
    if exists i :: i in Actives(s) && Intact(d, s.revisions[i])
    then base.Some? && Actives(s) == {base.value}
    else base.None?
  }

  predicate MayActivate(d: Deployment, s: Store, id: string, expected: nat) {
    && id in s.revisions
    && |Actives(s)| <= 1
    && s.revisions[id].version == expected
    && s.revisions[id].status == Validated
    && BaseIsCurrent(d, s, s.revisions[id].base)
  }

  /** One committed edit, or the unchanged store when it is refused: published rows are immutable
      except that activation supersedes the previous Active. */
  function Apply(d: Deployment, s: Store, e: Edit): Store {
    match e
    case Create(id, r) =>
      if id in s.revisions || Published(r.status) then s else s.(revisions := s.revisions[id := r])
    case Update(id, expected, r) =>
      if id !in s.revisions || s.revisions[id].version != expected || Published(s.revisions[id].status) || Published(r.status)
      then s
      else s.(revisions := s.revisions[id := r])
    case Activate(id, expected) =>
      if !MayActivate(d, s, id, expected) then s
      else
        Store(map i | i in s.revisions ::
                if i == id then s.revisions[i].(status := Active)
                else if s.revisions[i].status == Active then s.revisions[i].(status := Superseded)
                else s.revisions[i],
              true)
  }

  function Run(d: Deployment, s: Store, edits: seq<Edit>): Store
    decreases |edits|
  {
    if edits == [] then s else Run(d, Apply(d, s, edits[0]), edits[1..])
  }

  ghost predicate StoreOk(s: Store) {
    && |Actives(s)| <= 1
    && forall i | i in s.revisions && Published(s.revisions[i].status) :: s.activated
  }

  /* ---- reading ---- */

  datatype Failure =
    | ActiveUnreadable | SnapshotUnreadable | SnapshotMissing | ActiveMissing | SchemaUnsupported
    | SnapshotNotPublished | DigestMismatch | DigestCorrupt | RuntimeInvalid | OtherError

  datatype Read = Found(id: string, revision: Revision) | Nothing | Failing(failure: Failure)

  function GetRevision(s: Store, id: string): Read {
    if Blank(id) then Failing(OtherError)
    else if id !in s.revisions then Nothing
    else if s.revisions[id].readable then Found(id, s.revisions[id])
    else Failing(if s.revisions[id].status == Active then ActiveUnreadable else OtherError)
  }

  ghost function GetActive(s: Store): Read {
    if |Actives(s)| > 1 then Failing(OtherError)
    else if Actives(s) == {} then Nothing
    else
      var i :| i in Actives(s);
      if s.revisions[i].readable then Found(i, s.revisions[i]) else Failing(ActiveUnreadable)
  }

  /* ---- resolving ---- */

  datatype Configuration =
    | Managed(id: string, digest: string, version: nat, settings: string)
    | JsonBootstrap(settings: string)
    | MinimalBootstrap(settings: string)

  datatype Resolution = Resolved(configuration: Configuration) | Refused(failure: Failure)

  function FromBootstrap(d: Deployment): Resolution {
    match d.bootstrap
    case None => Refused(OtherError)
    case Some(settings) => Resolved(if d.minimal then MinimalBootstrap(settings) else JsonBootstrap(settings))
  }

  /** The checks every found revision passes, in their order. */
  function Checked(d: Deployment, id: string, r: Revision, pinned: bool, digest: string): Resolution {
    if r.schema != SCHEMA then Refused(SchemaUnsupported)
    else if pinned && !Published(r.status) then Refused(SnapshotNotPublished)
    else if digest != "" && r.digest != digest then Refused(DigestMismatch)
    else if d.digestOf(r.document) != r.digest then Refused(DigestCorrupt)
    else match d.load(r.document)
         case None => Refused(RuntimeInvalid)
         case Some(settings) =>
           if id == "" || r.digest == "" then Refused(OtherError)
           else Resolved(Managed(id, r.digest, r.version, settings))
  }

  /** The resolver opens the store twice: for the revision, and, when there is none, for the marker
      of an earlier activation. An empty id is no pin at all. */
  ghost function Resolve(d: Deployment, first: Store, second: Store, id: string, digest: string): Resolution {
    if d.locator.None? then Refused(OtherError)
    else
      match if id != "" then GetRevision(first, id) else GetActive(first)
      case Failing(f) =>
        Refused(if f == OtherError && id != "" then SnapshotUnreadable else f)
      case Nothing =>
        if id != "" then Refused(SnapshotMissing)
        else if second.activated then Refused(ActiveMissing)
        else FromBootstrap(d)
      case Found(found, r) => Checked(d, found, r, id != "", digest)
  }

  datatype Identity = Known(id: string, digest: string) | Unmanaged | Unknown(failure: Failure)

  /** The long-lived producers' resolver, which repeats the checks, and the two reads, on its own. */
  ghost function SnapshotIdentity(d: Deployment, first: Store, second: Store): Identity {
    if d.locator.None? then Unknown(OtherError)
    else
      match GetActive(first)
      case Failing(f) => Unknown(f)
      case Nothing => if second.activated then Unknown(ActiveMissing) else Unmanaged
      case Found(id, r) =>
        if r.schema != SCHEMA then Unknown(SchemaUnsupported)
        else if d.digestOf(r.document) != r.digest then Unknown(DigestCorrupt)
        else if d.load(r.document).None? then Unknown(RuntimeInvalid)
        else Known(id, r.digest)
  }

  /** The worker registration's resolver, which validates nothing. */
  ghost function SnapshotReference(d: Deployment, s: Store): Identity {
    if d.locator.None? then Unknown(OtherError)
    else
      match GetActive(s)
      case Failing(f) => Unknown(f)
      case Nothing => Unmanaged
      case Found(id, r) => Known(id, r.digest)
  }

  /* ---- what publication keeps ---- */

  /** later is the same published revision; only Active may have become Superseded. */
  predicate SamePublication(r: Revision, later: Revision) {
    Published(later.status) && later == r.(status := later.status)
  }

  lemma ApplyKeepsPublished(d: Deployment, s: Store, e: Edit, id: string)
    requires id in s.revisions && Published(s.revisions[id].status)
    ensures id in Apply(d, s, e).revisions && SamePublication(s.revisions[id], Apply(d, s, e).revisions[id])
    ensures s.activated ==> Apply(d, s, e).activated
  {
  }

  lemma {:induction false} RunKeepsPublished(d: Deployment, s: Store, edits: seq<Edit>, id: string)
    requires id in s.revisions && Published(s.revisions[id].status)
    ensures id in Run(d, s, edits).revisions && SamePublication(s.revisions[id], Run(d, s, edits).revisions[id])
    decreases |edits|
  {
    if edits == [] {
    } else {
      ApplyKeepsPublished(d, s, edits[0], id);
      RunKeepsPublished(d, Apply(d, s, edits[0]), edits[1..], id);
    }
  }

  lemma {:induction false} RunKeepsActivated(d: Deployment, s: Store, edits: seq<Edit>)
    requires s.activated
    ensures Run(d, s, edits).activated
    decreases |edits|
  {
    if edits == [] {
    } else {
      RunKeepsActivated(d, Apply(d, s, edits[0]), edits[1..]);
    }
  }

  lemma ApplyKeepsStore(d: Deployment, s: Store, e: Edit)
    requires StoreOk(s)
    ensures StoreOk(Apply(d, s, e))
  {
    var t := Apply(d, s, e);
    if e.Activate? && MayActivate(d, s, e.id, e.expected) {
      assert Actives(t) == {e.id};
    } else {
      assert Actives(t) == Actives(s) by {
        assert forall i :: i in Actives(t) <==> i in Actives(s);
      }
    }
  }

  lemma AtMostOne(s: Store)
    requires |Actives(s)| <= 1
    ensures forall i, j | i in s.revisions && j in s.revisions && s.revisions[i].status == s.revisions[j].status == Active :: i == j
  {
    SoleIff(Actives(s));
    assert forall i :: i in Actives(s) <==> i in s.revisions && s.revisions[i].status == Active;
  }

  /** Over every sequence of publications at most one revision is Active, and the activation marker
      is never lost while a published revision exists. */
  lemma {:induction false} RunKeepsStore(d: Deployment, s: Store, edits: seq<Edit>)
    requires StoreOk(s)
    ensures StoreOk(Run(d, s, edits))
    ensures var t := Run(d, s, edits);
            forall i, j | i in t.revisions && j in t.revisions && t.revisions[i].status == t.revisions[j].status == Active :: i == j
    decreases |edits|
  {
    if edits == [] {
    } else {
      ApplyKeepsStore(d, s, edits[0]);
      RunKeepsStore(d, Apply(d, s, edits[0]), edits[1..]);
    }
    AtMostOne(Run(d, s, edits));
  }

  /* ---- what an edit commits ---- */

  lemma SoleIff(ids: set<string>)
    ensures |ids| <= 1 <==> forall i, j | i in ids && j in ids :: i == j
  {
    if ids != {} {
      var i :| i in ids;
      var rest := ids - {i};
      assert ids == rest + {i};
      if |ids| <= 1 {
        assert rest == {};
      } else {
        assert rest != {};
        var j :| j in rest;
        assert j in ids;
      }
    }
  }

  /** What the Draft may be activated over: the one Active revision if it is intact, else nothing. */
  ghost predicate Follows(d: Deployment, s: Store, base: Option<string>) {
    && (forall i, j | i in s.revisions && j in s.revisions && s.revisions[i].status == s.revisions[j].status == Active :: i == j)
    && (base.Some? ==>
          && base.value in s.revisions && s.revisions[base.value].status == Active && s.revisions[base.value].readable
          && d.digestOf(s.revisions[base.value].document) == s.revisions[base.value].digest)
    && (base.None? ==> forall i | i in s.revisions && s.revisions[i].status == Active ::
          !s.revisions[i].readable || d.digestOf(s.revisions[i].document) != s.revisions[i].digest)
  }

  /** For every store: an activation commits exactly when the row exists with the expected version, is
      Validated, and was made from the intact Active revision, or from none when there is none or it is
      damaged. */
  lemma ActivatesIff(d: Deployment, s: Store, id: string, expected: nat)
    ensures Apply(d, s, Activate(id, expected)) != s <==>
              && id in s.revisions && s.revisions[id].version == expected && s.revisions[id].status == Validated
              && Follows(d, s, s.revisions[id].base)
  {
    SoleIff(Actives(s));
    if id in s.revisions {
      BaseIff(d, s, s.revisions[id].base);
    }
    if MayActivate(d, s, id, expected) {
      assert Apply(d, s, Activate(id, expected)).revisions[id].status == Active;
    }
  }

  lemma BaseIff(d: Deployment, s: Store, base: Option<string>)
    ensures |Actives(s)| <= 1 && BaseIsCurrent(d, s, base) <==> Follows(d, s, base)
  {
    SoleIff(Actives(s));
    assert forall i :: i in Actives(s) <==> i in s.revisions && s.revisions[i].status == Active;
    if exists i :: i in Actives(s) && Intact(d, s.revisions[i]) {
      var i :| i in Actives(s) && Intact(d, s.revisions[i]);
      if base.Some? && base.value in Actives(s) && |Actives(s)| <= 1 {
        assert Actives(s) == {base.value};
      }
    }
  }

  /** And then that row is Active, the former Active one Superseded, every other row as it was. */
  lemma ActivationReplaces(d: Deployment, s: Store, id: string, expected: nat, other: string)
    requires Apply(d, s, Activate(id, expected)) != s && other in s.revisions
    ensures var t := Apply(d, s, Activate(id, expected));
            && t.activated && t.revisions.Keys == s.revisions.Keys
            && t.revisions[other] == s.revisions[other].(status := if other == id then Active
                                                                    else if s.revisions[other].status == Active then Superseded
                                                                    else s.revisions[other].status)
  {
  }

  /** A Draft is written under the version it was read at, and only while it is not published. */
  lemma UpdatesIff(d: Deployment, s: Store, id: string, expected: nat, r: Revision)
    ensures Apply(d, s, Update(id, expected, r)) in {s, s.(revisions := s.revisions[id := r])}
    ensures Apply(d, s, Update(id, expected, r)) != s <==>
              && id in s.revisions && s.revisions[id].version == expected && r != s.revisions[id]
              && s.revisions[id].status in {Draft, Validated} && r.status in {Draft, Validated}
  {
  }

  /** A new row never takes the place of another one and is never born published. */
  lemma CreatesIff(d: Deployment, s: Store, id: string, r: Revision)
    ensures Apply(d, s, Create(id, r)) in {s, s.(revisions := s.revisions[id := r])}
    ensures Apply(d, s, Create(id, r)) != s <==> id !in s.revisions && r.status in {Draft, Validated}
  {
    if Apply(d, s, Create(id, r)) != s {
      assert id in Apply(d, s, Create(id, r)).revisions;
    }
  }

  lemma {:induction false} SupersededStays(d: Deployment, s: Store, edits: seq<Edit>, id: string)
    requires id in s.revisions && s.revisions[id].status == Superseded
    ensures id in Run(d, s, edits).revisions && Run(d, s, edits).revisions[id].status == Superseded
    decreases |edits|
  {
    if edits == [] {
    } else {
      SupersededStays(d, Apply(d, s, edits[0]), edits[1..], id);
    }
  }

  /** No published work is lost: an activation that supersedes an intact revision was made from that revision. */
  lemma ActivationBuildsOnActive(d: Deployment, s: Store, id: string, expected: nat, active: string)
    requires Apply(d, s, Activate(id, expected)) != s
    requires active in s.revisions && s.revisions[active].status == Active && Intact(d, s.revisions[active])
    ensures s.revisions[id].base == Some(active)
    ensures Apply(d, s, Activate(id, expected)).revisions[active].status == Superseded
  {
    ActivatesIff(d, s, id, expected);
    ActivationReplaces(d, s, id, expected, active);
  }

  /** Of all Drafts made from one revision at most one is ever activated: after the first of them, over every
      sequence of edits, none of the others is. */
  lemma OneSuccessor(d: Deployment, s: Store, id: string, expected: nat, base: string, edits: seq<Edit>, other: string, version: nat)
    requires Apply(d, s, Activate(id, expected)) != s && s.revisions[id].base == Some(base)
    ensures var later := Run(d, Apply(d, s, Activate(id, expected)), edits);
            other in later.revisions && later.revisions[other].base == Some(base) ==>
              Apply(d, later, Activate(other, version)) == later
  {
    ActivatesIff(d, s, id, expected);
    ActivationReplaces(d, s, id, expected, base);
    var next := Apply(d, s, Activate(id, expected));
    SupersededStays(d, next, edits, base);
    ActivatesIff(d, Run(d, next, edits), other, version);
  }

  /* ---- pins ---- */

  /** What a pinned revision must be for the resolver to accept it, and what it then yields. */
  predicate Usable(d: Deployment, r: Revision, digest: string) {
    && r.readable && Published(r.status) && r.schema == SCHEMA && r.digest != ""
    && (digest != "" ==> r.digest == digest)
    && d.digestOf(r.document) == r.digest
    && d.load(r.document).Some?
  }

  /** A pinned id resolves exactly when its own revision is published, readable, of the supported
      schema, uncorrupted, loadable and of the pinned digest; the answer depends on nothing else in
      either store, in particular not on what is Active. */
  lemma PinnedResolvesIff(d: Deployment, first: Store, second: Store, id: string, digest: string)
    requires id != ""
    ensures Resolve(d, first, second, id, digest).Resolved? <==>
              d.locator.Some? && !Blank(id) && id in first.revisions && Usable(d, first.revisions[id], digest)
    ensures Resolve(d, first, second, id, digest).Resolved? ==>
              var r := first.revisions[id];
              Resolve(d, first, second, id, digest).configuration == Managed(id, r.digest, r.version, d.load(r.document).value)
  {
  }

  /** Each refusal of a pin has one cause, and the causes are looked for in this order. */
  lemma PinnedRefusedIff(d: Deployment, first: Store, second: Store, id: string, digest: string)
    requires id != "" && d.locator.Some? && id in first.revisions
    ensures var r, x := first.revisions[id], Resolve(d, first, second, id, digest);
            var loaded := !Blank(id) && r.readable && r.schema == SCHEMA && r.status in {Active, Superseded};
            var same := loaded && (digest == "" || digest == r.digest);
            var whole := same && d.digestOf(r.document) == r.digest;
            && (x == Refused(SnapshotUnreadable) <==> Blank(id) || (!r.readable && r.status != Active))
            && (x == Refused(ActiveUnreadable) <==> !Blank(id) && !r.readable && r.status == Active)
            && (x == Refused(SchemaUnsupported) <==> !Blank(id) && r.readable && r.schema != SCHEMA)
            && (x == Refused(SnapshotNotPublished) <==>
                  !Blank(id) && r.readable && r.schema == SCHEMA && r.status in {Draft, Validated})
            && (x == Refused(DigestMismatch) <==> loaded && digest != "" && digest != r.digest)
            && (x == Refused(DigestCorrupt) <==> same && d.digestOf(r.document) != r.digest)
            && (x == Refused(RuntimeInvalid) <==> whole && d.load(r.document).None?)
            && (x == Refused(OtherError) <==> whole && d.load(r.document).Some? && r.digest == "")
  {
  }

  lemma PinnedMissingIff(d: Deployment, first: Store, second: Store, id: string, digest: string)
    requires id != ""
    ensures Resolve(d, first, second, id, digest) == Refused(SnapshotMissing) <==>
              d.locator.Some? && !Blank(id) && id !in first.revisions
  {
  }

  /** id is Active and no other revision is. */
  predicate OnlyActive(s: Store, id: string) {
    id in s.revisions && s.revisions[id].status == Active && forall i | i in s.revisions && s.revisions[i].status == Active :: i == id
  }

  lemma ActiveIs(s: Store, id: string)
    ensures GetActive(s).Found? && GetActive(s).id == id <==> OnlyActive(s, id) && s.revisions[id].readable
    ensures GetActive(s).Found? ==> GetActive(s).id in s.revisions && GetActive(s).revision == s.revisions[GetActive(s).id]
    ensures GetActive(s).Nothing? <==> forall i | i in s.revisions :: s.revisions[i].status != Active
  {
    SoleIff(Actives(s));
    assert forall i :: i in Actives(s) <==> i in s.revisions && s.revisions[i].status == Active;
    if OnlyActive(s, id) {
      assert Actives(s) == {id};
    }
  }

  /** Without a pin the answer is the one Active revision, if it is usable, and the bootstrap of the file's own
      kind only when the first read finds no Active revision and the second no trace of one. */
  lemma UnpinnedResolvesIff(d: Deployment, first: Store, second: Store, digest: string, c: Configuration)
    ensures Resolve(d, first, second, "", digest) == Resolved(c) <==>
              && d.locator.Some?
              && match c
                 case Managed(id, _, _, _) =>
                   && OnlyActive(first, id) && id != "" && Usable(d, first.revisions[id], digest)
                   && c == Managed(id, first.revisions[id].digest, first.revisions[id].version, d.load(first.revisions[id].document).value)
                 case JsonBootstrap(settings) => !d.minimal && d.bootstrap == Some(settings) && NeverActivated(first, second)
                 case MinimalBootstrap(settings) => d.minimal && d.bootstrap == Some(settings) && NeverActivated(first, second)
  {
    match c
    case Managed(id, _, _, _) => ActiveIs(first, id);
    case JsonBootstrap(_) => ActiveIs(first, "");
    case MinimalBootstrap(_) => ActiveIs(first, "");
  }

  predicate NeverActivated(first: Store, second: Store) {
    !second.activated && forall i | i in first.revisions :: first.revisions[i].status != Active
  }

  /** The registration's reference names the one Active revision without validating it. */
  lemma ReferenceIff(d: Deployment, s: Store, id: string, digest: string)
    ensures SnapshotReference(d, s) == Known(id, digest) <==>
              d.locator.Some? && OnlyActive(s, id) && s.revisions[id].readable && s.revisions[id].digest == digest
    ensures SnapshotReference(d, s) == Unmanaged <==>
              d.locator.Some? && forall i | i in s.revisions :: s.revisions[i].status != Active
  {
    ActiveIs(s, id);
  }

  /** A pin that resolved once keeps resolving to the same document, digest and version after every
      sequence of later publications, whichever stores the two reads see. */
  lemma PinIsStable(d: Deployment, s: Store, edits: seq<Edit>, second: Store, other: Store, id: string, digest: string)
    requires id != "" && Resolve(d, s, second, id, digest).Resolved?
    ensures Resolve(d, Run(d, s, edits), other, id, digest) == Resolve(d, s, second, id, digest)
  {
    PinnedResolvesIff(d, s, second, id, digest);
    RunKeepsPublished(d, s, edits, id);
    PinnedResolvesIff(d, Run(d, s, edits), other, id, digest);
  }

  lemma SoleActive(s: Store, id: string)
    requires Actives(s) == {id}
    ensures GetActive(s) == if s.revisions[id].readable then Found(id, s.revisions[id]) else Failing(ActiveUnreadable)
  {
    assert id in Actives(s);
  }

  /** An empty id is not stable: work admitted before any activation, whose pin is empty, follows the
      Active revision as soon as one is activated. */
  lemma EmptyPinFollowsActive(d: Deployment, s: Store, id: string)
    requires d.locator.Some? && d.bootstrap.Some? && s == Store(map[], false)
    requires !Blank(id) && d.digestOf("doc") == "h" && d.load("doc") == Some("managed")
    ensures var r := Revision(0, Validated, SCHEMA, "h", "doc", None, true);
            var later := Run(d, s, [Create(id, r), Activate(id, 0)]);
            && Resolve(d, s, s, "", "") == FromBootstrap(d)
            && Resolve(d, later, later, "", "") == Resolved(Managed(id, "h", 0, "managed"))
  {
    var r := Revision(0, Validated, SCHEMA, "h", "doc", None, true);
    var s1 := Apply(d, s, Create(id, r));
    var s2 := Apply(d, s1, Activate(id, 0));
    assert Actives(s) == {} && Actives(s1) == {};
    assert [Create(id, r), Activate(id, 0)][1..] == [Activate(id, 0)];
    assert [Activate(id, 0)][1..] == [] && Run(d, s2, []) == s2 && Run(d, s1, [Activate(id, 0)]) == s2;
    assert Actives(s2) == {id};
    SoleActive(s2, id);
  }

  /* ---- fail closed ---- */

  /** The JSON bootstrap authorizes work only while no activation was ever committed, up to the second
      read and through any publications between the two. */
  lemma BootstrapOnlyBeforeActivation(d: Deployment, first: Store, edits: seq<Edit>, id: string, digest: string)
    requires StoreOk(first)
    requires var x := Resolve(d, first, Run(d, first, edits), id, digest);
             x.Resolved? && !x.configuration.Managed?
    ensures id == "" && !first.activated && !Run(d, first, edits).activated
    ensures forall i | i in Run(d, first, edits).revisions :: !Published(Run(d, first, edits).revisions[i].status)
  {
    RunKeepsStore(d, first, edits);
    if first.activated {
      RunKeepsActivated(d, first, edits);
    }
  }

  /** An activation that lands between the two reads refuses instead of falling back, although by then
      an Active revision exists. */
  lemma ActivationBetweenReadsRefuses(d: Deployment, first: Store, edits: seq<Edit>)
    requires d.locator.Some? && Actives(first) == {} && Run(d, first, edits).activated
    ensures Resolve(d, first, Run(d, first, edits), "", "") == Refused(ActiveMissing)
  {
  }

  /* ---- the resolvers agree ---- */

  /** Whatever stores the two reads see, the identity resolver knows a complete (id, digest) exactly when
      the unpinned resolver succeeds on them with that managed identity; both refuse for the same reason
      otherwise, and the unvalidated reference equals the identity whenever the identity is known. */
  lemma ResolversAgree(d: Deployment, first: Store, second: Store)
    ensures forall id, digest ::
              SnapshotIdentity(d, first, second) == Known(id, digest) && id != "" && digest != "" <==>
              exists version, settings :: Resolve(d, first, second, "", "") == Resolved(Managed(id, digest, version, settings))
    ensures SnapshotIdentity(d, first, second).Unmanaged? ==>
              d.locator.Some? && Resolve(d, first, second, "", "") == FromBootstrap(d)
    ensures SnapshotIdentity(d, first, second).Unknown? ==>
              Resolve(d, first, second, "", "") == Refused(SnapshotIdentity(d, first, second).failure)
    ensures SnapshotIdentity(d, first, second).Known? ==> SnapshotReference(d, first) == SnapshotIdentity(d, first, second)
  {
    var x := SnapshotIdentity(d, first, second);
    if x.Known? && x.id != "" && x.digest != "" {
      var found := GetActive(first);
      assert Resolve(d, first, second, "", "") ==
        Resolved(Managed(found.id, found.revision.digest, found.revision.version, d.load(found.revision.document).value));
    }
  }

  /** And the identity is a pin that stays good: after any sequence of later publications, whatever store
      the resolver's second read sees, it resolves to the configuration that was Active when the
      producer read it. Only an id of blanks alone is refused. */
  lemma KnownIdentityStaysGood(d: Deployment, first: Store, second: Store, edits: seq<Edit>, other: Store)
    requires SnapshotIdentity(d, first, second).Known?
    requires SnapshotIdentity(d, first, second).id != "" && SnapshotIdentity(d, first, second).digest != ""
    ensures var x := SnapshotIdentity(d, first, second);
            var later := Resolve(d, Run(d, first, edits), other, x.id, x.digest);
            (later.Resolved? <==> !Blank(x.id)) && (later.Resolved? ==> later == Resolve(d, first, second, "", ""))
  {
    var x := SnapshotIdentity(d, first, second);
    var found := GetActive(first);
    RunKeepsPublished(d, first, edits, found.id);
    PinnedResolvesIff(d, Run(d, first, edits), other, x.id, x.digest);
  }

  /* ---- rebuilding a claimed transfer ---- */

  datatype Kind = ResourceKind | MediaKind

  datatype Rebuild = Service(kind: Kind, id: string, digest: string, settings: string) | Unserved | Raising

  const MEDIA_PREFIX := "media_"
  const TRANSFER := "files_transfer"
  const DELETE := "files_delete"

  function DirectCommand(operation: string, kind: Kind): string {
    if kind == MediaKind then MEDIA_PREFIX + operation else operation
  }

  /** The claimed transfer's pinned row is read first; the whole resolver then runs again later. */
  ghost function Reconstruct(d: Deployment, first: Store, later: Store, id: string, digest: string, kind: Kind): Rebuild {
    match GetRevision(first, id)
    case Failing(_) => Raising
    case Nothing => Unserved
    case Found(_, pinned) =>
      if pinned.status == Draft || (digest != "" && pinned.digest != digest) then Unserved
      else
        match Resolve(d, later, later, id, pinned.digest)
        case Refused(_) => Unserved
        case Resolved(c) => if c.Managed? then Service(kind, c.id, c.digest, c.settings) else Unserved
  }

  ghost function ServiceFor(d: Deployment, first: Store, later: Store, command: string, id: string, digest: string): Rebuild {
    var media := command in {DirectCommand(TRANSFER, MediaKind), DirectCommand(DELETE, MediaKind)};
    if !media && command !in {DirectCommand(TRANSFER, ResourceKind), DirectCommand(DELETE, ResourceKind)} then Unserved
    else Reconstruct(d, first, later, id, digest, if media then MediaKind else ResourceKind)
  }

  /** A claimed transfer is rebuilt exactly when its pinned row was readable and not a Draft at the
      first read and is usable under the pinned digest when it is resolved; a row that was merely
      Validated passes the first test and is excluded only by the second. */
  lemma RebuiltIff(d: Deployment, first: Store, edits: seq<Edit>, id: string, digest: string, kind: Kind)
    ensures var later := Run(d, first, edits);
            Reconstruct(d, first, later, id, digest, kind).Service? <==>
              && !Blank(id) && id in first.revisions && first.revisions[id].readable && first.revisions[id].status != Draft
              && (digest != "" ==> first.revisions[id].digest == digest)
              && d.locator.Some? && id in later.revisions && Usable(d, later.revisions[id], first.revisions[id].digest)
  {
    if !Blank(id) {
      PinnedResolvesIff(d, Run(d, first, edits), Run(d, first, edits), id, if id in first.revisions then first.revisions[id].digest else "");
    }
  }

  /** Once published, later publications never change whether or as what the transfer is rebuilt. */
  lemma RebuildIsStable(d: Deployment, first: Store, edits: seq<Edit>, id: string, digest: string, kind: Kind)
    requires id in first.revisions && Published(first.revisions[id].status)
    ensures Reconstruct(d, first, Run(d, first, edits), id, digest, kind) == Reconstruct(d, first, first, id, digest, kind)
    ensures Reconstruct(d, Run(d, first, edits), Run(d, first, edits), id, digest, kind).Service? <==>
            Reconstruct(d, first, first, id, digest, kind).Service?
  {
    RunKeepsPublished(d, first, edits, id);
  }

  /** The four commands that are served, each with its own library kind, and no others. */
  lemma ServiceForIs(d: Deployment, first: Store, later: Store, command: string, id: string, digest: string)
    ensures ServiceFor(d, first, later, command, id, digest) ==
              if command == "files_transfer" || command == "files_delete" then Reconstruct(d, first, later, id, digest, ResourceKind)
              else if command == "media_files_transfer" || command == "media_files_delete"
              then Reconstruct(d, first, later, id, digest, MediaKind)
              else Unserved
  {
    assert DirectCommand(TRANSFER, MediaKind) == "media_files_transfer" && DirectCommand(DELETE, MediaKind) == "media_files_delete";
    assert "files_transfer"[0] == 'f' && "files_delete"[0] == 'f' && "media_files_transfer"[0] == 'm' && "media_files_delete"[0] == 'm';
  }

  /** The service always works on the library kind its command names, and on the pinned revision. */
  lemma KindFollowsCommand(d: Deployment, first: Store, later: Store, operation: string, kind: Kind, id: string, digest: string)
    requires operation in {TRANSFER, DELETE}
    ensures var x := ServiceFor(d, first, later, DirectCommand(operation, kind), id, digest);
            x.Service? ==> x.kind == kind && x.id == id && (digest != "" ==> x.digest == digest)
  {
    assert DirectCommand(operation, MediaKind)[0] == 'm' && DirectCommand(operation, ResourceKind)[0] == 'f';
    if !Blank(id) {
      PinnedResolvesIff(d, later, later, id, if id in first.revisions then first.revisions[id].digest else "");
    }
  }
}
