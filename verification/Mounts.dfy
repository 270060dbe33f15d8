/** `ProviderServer.Mount` of csi.go. */
module Mounts {
  import opened Handlers
  import opened Paths
  import opened Permissions
  import opened Protocol
  import opened Runs
  import opened Strings
  import opened VaultManagers
  import opened VaultTrees
  import opened Wrappers

  // ---------- The request string ----------

  datatype Item = Item(file: string, path: string)

  /** One element of the comma-separated list; None for an element that is skipped. */
  function ParseItem(element: string): Option<Item> {
    var reqPair := TrimSpace(element);
    if reqPair == "" then None
    else
      var parts := SplitN2(reqPair, '=');
      if |parts| != 2 then None
      else Some(Item(TrimSpace(parts[0]), NormalizePath(TrimSpace(parts[1]))))
  }

  function ParseItems(elements: seq<string>): seq<Item> {
    FilterMap(elements, ParseItem)
  }

  function RequestedItems(secrets: string): seq<Item> {
    ParseItems(Split(secrets, ','))
  }

  // The documented format: "file=/path, next_file=/next/path".
  function RenderItem(item: Item): string {
    item.file + "=" + item.path
  }

  function RenderItems(items: seq<Item>): string {
    Join(seq(|items|, i requires 0 <= i < |items| => RenderItem(items[i])), ", ")
  }

  predicate Renderable(item: Item) {
    && Trimmed(item.file) && ',' !in item.file && '=' !in item.file
    && Rooted(item.path) && Trimmed(item.path) && ',' !in item.path
  }

  lemma ParseRendered(item: Item, blank: string)
    requires Renderable(item) && (blank == "" || blank == " ")
    ensures ParseItem(blank + RenderItem(item)) == Some(item)
  {
    RenderTrimmed(item);
    TrimBlank(blank, RenderItem(item), "");
    assert blank + RenderItem(item) + "" == blank + RenderItem(item);
    SplitN2Cut(item.file, item.path, '=');
    TrimTrimmed(item.file);
    TrimTrimmed(item.path);
    NormalizeRooted(item.path);
  }

  lemma RenderTrimmed(item: Item)
    requires Renderable(item)
    ensures var text := RenderItem(item); text != "" && Trimmed(text) && text == item.file + ['='] + item.path
  {
    var text := RenderItem(item);
    assert text[|text| - 1] == item.path[|item.path| - 1];
    assert text[0] == if item.file == "" then '=' else item.file[0];
  }

  /** The elements of a rendered list: all but the first start with the blank of ", ". */
  function Elements(texts: seq<string>, blank: string): seq<string> {
    if texts == [] then [] else [blank + texts[0]] + Elements(texts[1..], " ")
  }

  lemma {:induction false} SplitRendered(texts: seq<string>, blank: string)
    requires texts != [] && forall i | 0 <= i < |texts| :: ',' !in texts[i]
    requires ',' !in blank
    ensures Split(blank + Join(texts, ", "), ',') == Elements(texts, blank)
    decreases texts
  {
    SplitWithoutSep(blank + texts[0], ',');
    if |texts| == 1 {
      assert Elements(texts[1..], " ") == [];
    } else {
      SplitRendered(texts[1..], " ");
      SplitAppend(blank + texts[0], " " + Join(texts[1..], ", "), ',');
      assert blank + Join(texts, ", ") == (blank + texts[0]) + [','] + (" " + Join(texts[1..], ", "));
    }
  }

  lemma {:induction false} ParseElements(items: seq<Item>, texts: seq<string>, blank: string)
    requires |texts| == |items| && forall i | 0 <= i < |items| ::
               Renderable(items[i]) && texts[i] == RenderItem(items[i])
    requires blank == "" || blank == " "
    ensures ParseItems(Elements(texts, blank)) == items
    decreases items
  {
    if items != [] {
      ParseElements(items[1..], texts[1..], " ");
      ParseRendered(items[0], blank);
      FilterMapFirst(blank + texts[0], Elements(texts[1..], " "), ParseItem);
    }
  }

  /** Rendering a list in the documented format and parsing it gives the list back. */
  lemma RequestRoundTrip(items: seq<Item>)
    requires forall i | 0 <= i < |items| :: Renderable(items[i])
    ensures RequestedItems(RenderItems(items)) == items
  {
    var texts := seq(|items|, i requires 0 <= i < |items| => RenderItem(items[i]));
    if items == [] {
      assert texts == [] && Split("", ',') == [""] && [""][..0] == [];
    } else {
      assert forall i | 0 <= i < |texts| :: texts[i] == RenderItem(items[i]) && ',' !in texts[i];
      SplitRendered(texts, "");
      assert "" + Join(texts, ", ") == Join(texts, ", ");
      ParseElements(items, texts, "");
    }
  }

  /** What the parser does with any element: the first '=' separates a file name and a path, both
      trimmed; without one the element is skipped. */
  lemma ParseItemExactly(left: string, right: string)
    requires '=' !in left
    ensures ParseItem(left + ['='] + right) == Some(Item(TrimSpace(left), NormalizePath(TrimSpace(right))))
    ensures ParseItem(left).None?
  {
    AsciiClasses('=');
    TrimSpaceAround(left, '=', right);
    TrimLeftKeepsOut(left, '=');
    SplitN2Cut(TrimLeft(left), TrimRight(right), '=');
    TrimAfterLeft(left);
    TrimAfterRight(right);
    TrimSpaceKeepsOut(left, '=');
    SplitN2Whole(TrimSpace(left), '=');
  }

  /** Commas separate the elements, and nothing else does. */
  lemma RequestAppend(left: string, right: string)
    ensures RequestedItems(left + "," + right) == RequestedItems(left) + RequestedItems(right)
    ensures ',' !in left ==>
              RequestedItems(left) == if ParseItem(left).Some? then [ParseItem(left).value] else []
  {
    SplitAppend(left, right, ',');
    FilterMapAppend(Split(left, ','), Split(right, ','), ParseItem);
    if ',' !in left {
      SplitWithoutSep(left, ',');
      FilterMapOne(left, ParseItem);
    }
  }

  lemma ParsedItemRenderable(element: string)
    requires ',' !in element && ParseItem(element).Some?
    ensures Renderable(ParseItem(element).value)
  {
    var reqPair := TrimSpace(element);
    var parts := SplitN2(reqPair, '=');
    TrimSpaceKeepsOut(element, ',');
    SplitN2Parts(reqPair, '=', ',');
    FileNameRenderable(parts[0]);
    PathRenderable(parts[1]);
  }

  lemma FileNameRenderable(text: string)
    requires ',' !in text && '=' !in text
    ensures var file := TrimSpace(text); Trimmed(file) && ',' !in file && '=' !in file
  {
    TrimSpaceTrimmed(text);
    TrimSpaceKeepsOut(text, ',');
    TrimSpaceKeepsOut(text, '=');
  }

  lemma PathRenderable(text: string)
    requires ',' !in text
    ensures var path := NormalizePath(TrimSpace(text)); Rooted(path) && Trimmed(path) && ',' !in path
  {
    TrimSpaceTrimmed(text);
    TrimSpaceKeepsOut(text, ',');
  }

  /** Whatever string is parsed, the items can be written in the documented format, and writing
      them so and parsing again changes nothing. */
  lemma ParsedItemsRoundTrip(secrets: string)
    ensures forall i | 0 <= i < |RequestedItems(secrets)| :: Renderable(RequestedItems(secrets)[i])
    ensures RequestedItems(RenderItems(RequestedItems(secrets))) == RequestedItems(secrets)
  {
    var elements, items := Split(secrets, ','), RequestedItems(secrets);
    SplitParts(secrets, ',');
    forall i | 0 <= i < |items| ensures Renderable(items[i]) {
      var j := FilterMapFrom(elements, ParseItem, i);
      ParsedItemRenderable(elements[j]);
    }
    RequestRoundTrip(items);
  }

  // ---------- Mount ----------

  // 0644
  const FILE_MODE: nat := 0x1A4

  datatype File = File(path: string, mode: nat, contents: string)

  datatype ObjectVersion = ObjectVersion(id: string, version: string)

  datatype MountResponse = MountResponse(files: seq<File>, versions: seq<ObjectVersion>)

  datatype MountError =
    | StillLocked | BadAttributes | IdentityRequired | InvalidIdentity | LoadFailed(failure: Failure)
    | InvalidFileName(name: string) | NotFound(path: string) | AccessDenied(path: string)

  predicate LegalFileName(name: string) {
    '/' !in name && '\\' !in name && !("." <= name)
  }

  lemma LegalByFirst(name: string)
    ensures LegalFileName(name) <==> '/' !in name && '\\' !in name && (name == "" || name[0] != '.')
  {
    assert name != "" ==> name[..1] == [name[0]];
  }

  predicate CleanIdentity(name: string) {
    name != "" && '/' !in name && '\\' !in name && '\0' !in name
  }

  function Attribute(attrs: map<string, string>, key: string): string {
    if key in attrs then attrs[key] else ""
  }

  function Namespace(attrs: map<string, string>): string {
    TrimSpace(Attribute(attrs, "csi.storage.k8s.io/pod.namespace"))
  }

  function ServiceAccount(attrs: map<string, string>): string {
    TrimSpace(Attribute(attrs, "csi.storage.k8s.io/serviceAccount.name"))
  }

  /** A legal, non-empty file name names something directly below the directory it is joined to. */
  lemma LegalNameStaysBelow(dir: string, name: string)
    requires Canonical(dir) && LegalFileName(name) && name != ""
    ensures Segments(PathJoin(dir, name)) == Segments(dir) + [name] && PathJoin(dir, name) == ChildPrefix(dir) + name
  {
    assert name[..1] == [name[0]];
    assert NormalSegment(name);
    JoinChild(dir, name);
    SegmentsAreNormal(dir);
    SegmentsOfRender(Segments(dir) + [name]);
  }

  predicate GoodIdentity(attrs: map<string, string>) {
    CleanIdentity(Namespace(attrs)) && CleanIdentity(ServiceAccount(attrs))
  }

  /** Two accepted identities with the same key are the same, and no key is a namespace. */
  lemma GoodIdentitiesDistinct(a: map<string, string>, b: map<string, string>)
    requires GoodIdentity(a) && GoodIdentity(b)
    ensures PodKey(Namespace(a), ServiceAccount(a)) == PodKey(Namespace(b), ServiceAccount(b)) <==>
            Namespace(a) == Namespace(b) && ServiceAccount(a) == ServiceAccount(b)
    ensures PodKey(Namespace(a), ServiceAccount(a)) != Namespace(b)
  {
    PodKeyInjective(Namespace(a), ServiceAccount(a), Namespace(b), ServiceAccount(b));
  }

  const NAMESPACE_KEY := "csi.storage.k8s.io/pod.namespace"
  const ACCOUNT_KEY := "csi.storage.k8s.io/serviceAccount.name"

  /** Usable as one half of an identity: something, without slash, backslash and NUL. */
  predicate GoodName(name: string) {
    name != "" && forall i | 0 <= i < |name| :: name[i] != '/' && name[i] != '\\' && name[i] != '\0'
  }

  /** Which attributes identify a pod: both are there, and good once the blanks around them are
      gone. */
  lemma GoodIdentityExactly(attrs: map<string, string>)
    ensures GoodIdentity(attrs) <==>
            && NAMESPACE_KEY in attrs && GoodName(TrimSpace(attrs[NAMESPACE_KEY]))
            && ACCOUNT_KEY in attrs && GoodName(TrimSpace(attrs[ACCOUNT_KEY]))
  {
  }

  /** The attributes of a pod of namespace `ns` and account `sa` that asks for the items. */
  ghost predicate Asks(attrs: map<string, string>, ns: string, sa: string, items: seq<Item>) {
    && NAMESPACE_KEY in attrs && attrs[NAMESPACE_KEY] == ns && Trimmed(ns) && GoodName(ns)
    && ACCOUNT_KEY in attrs && attrs[ACCOUNT_KEY] == sa && Trimmed(sa) && GoodName(sa)
    && "secrets" in attrs && attrs["secrets"] == RenderItems(items)
    && (forall i | 0 <= i < |items| :: Renderable(items[i]))
  }

  lemma AskedIdentity(attrs: map<string, string>, ns: string, sa: string, items: seq<Item>)
    requires Asks(attrs, ns, sa, items)
    ensures GoodIdentity(attrs) && Namespace(attrs) == ns && ServiceAccount(attrs) == sa
    ensures RequestedItems(Attribute(attrs, "secrets")) == items
  {
    TrimTrimmed(ns);
    TrimTrimmed(sa);
    RequestRoundTrip(items);
  }

  class ProviderServer {
    const manager: VaultManager
    const rules: Option<Rules>
    const allowUnauthenticated: bool

    constructor (manager: VaultManager, rules: Option<Rules>, allowUnauthenticated: bool)
      ensures this.manager == manager && this.rules == rules && this.allowUnauthenticated == allowUnauthenticated
    {
      this.manager, this.rules, this.allowUnauthenticated := manager, rules, allowUnauthenticated;
    }

    predicate MayAccess(namespace: string, sa: string, vaultPath: string) {
      if rules.None? then allowUnauthenticated else CanAccess(rules.value, namespace, sa, vaultPath)
    }

    /** The item can be mounted from this tree by this pod. */
    predicate Mountable(nodes: Nodes, attrs: map<string, string>, item: Item) {
      LegalFileName(item.file) && item.path in nodes && MayAccess(Namespace(attrs), ServiceAccount(attrs), item.path)
    }

    /** The rule that decides for the pod grants the place the path literally names. */
    predicate Granted(attrs: map<string, string>, vaultPath: string)
      requires Rooted(vaultPath)
    {
      if rules.None? then allowUnauthenticated
      else GrantedByAny(DecidingRule(rules.value, Namespace(attrs), ServiceAccount(attrs)), LiteralSegments(vaultPath))
    }

    /** The grant is checked on the cleaned path and the lookup is literal; on a tree with
        canonical keys they agree. */
    lemma MountableIsGranted(nodes: Nodes, attrs: map<string, string>, item: Item)
      requires CanonicalKeys(nodes) && Rooted(item.path)
      ensures Mountable(nodes, attrs, item) <==>
              LegalFileName(item.file) && item.path in nodes && Granted(attrs, item.path)
    {
      if rules.Some? && item.path in nodes {
        AccessIsLiteral(rules.value, Namespace(attrs), ServiceAccount(attrs), item.path);
      }
    }

    predicate AllGranted(attrs: map<string, string>, items: seq<Item>) {
      forall i | 0 <= i < |items| :: Rooted(items[i].path) && Granted(attrs, items[i].path)
    }

    lemma DeliveredIsGranted(nodes: Nodes, attrs: map<string, string>, secrets: string)
      requires CanonicalKeys(nodes) && AllMountable(nodes, attrs, RequestedItems(secrets))
      ensures AllGranted(attrs, RequestedItems(secrets))
    {
      var items := RequestedItems(secrets);
      ParsedItemsRoundTrip(secrets);
      forall i | 0 <= i < |items| ensures Rooted(items[i].path) && Granted(attrs, items[i].path) {
        assert Renderable(items[i]) && Mountable(nodes, attrs, items[i]);
        MountableIsGranted(nodes, attrs, items[i]);
      }
    }

    /** In a run of handler requests from a well-formed vault, what Mount delivers are values of
        the tree that was stored at one moment, each from a place the pod's rule grants. */
    lemma MountsStayInGrant(s0: System, labels: seq<Label>, posted: map<nat, Posted>, moment: nat, order: seq<string>,
                            nodes: Nodes, attrs: map<string, string>, secrets: string, response: MountResponse)
      requires Initial(s0) && WellFormed(StoredTree(s0.secret)) && Served(labels, posted)
      requires moment <= |Run(s0, labels).log| && SnapshotAt(Run(s0, labels), moment, order, nodes)
      requires AllMountable(nodes, attrs, RequestedItems(secrets))
      requires Delivers(response, nodes, RequestedItems(secrets))
      ensures nodes == StoredTree(SecretAt(s0.secret, Run(s0, labels).log, moment))
      ensures AllGranted(attrs, RequestedItems(secrets))
      ensures forall i | 0 <= i < |RequestedItems(secrets)| ::
                var item := RequestedItems(secrets)[i];
                item.path in nodes && response.files[i].contents == nodes[item.path].value
    {
      SnapshotsAreStored(s0, labels, posted, moment, order, nodes);
      DeliveredIsGranted(nodes, attrs, secrets);
    }

    /** The complaint about an item that cannot be mounted: name, then existence, then grant. */
    predicate Complaint(nodes: Nodes, attrs: map<string, string>, item: Item, error: MountError) {
      match error
      case InvalidFileName(name) => name == item.file && !LegalFileName(name)
      case NotFound(path) => path == item.path && LegalFileName(item.file) && path !in nodes
      case AccessDenied(path) =>
        path == item.path && LegalFileName(item.file) && path in nodes && !Mountable(nodes, attrs, item)
      case _ => false
    }

    /** Pod `sa` of namespace `ns` may mount the item from this tree. */
    predicate MayMount(nodes: Nodes, ns: string, sa: string, item: Item) {
      && '/' !in item.file && '\\' !in item.file && (item.file == "" || item.file[0] != '.')
      && item.path in nodes
      && if rules.None? then allowUnauthenticated else CanAccess(rules.value, ns, sa, item.path)
    }

    lemma AskedIsDecided(attrs: map<string, string>, ns: string, sa: string, items: seq<Item>, nodes: Nodes)
      requires Asks(attrs, ns, sa, items)
      ensures AllMountable(nodes, attrs, items) <==> forall i | 0 <= i < |items| :: MayMount(nodes, ns, sa, items[i])
    {
      AskedIdentity(attrs, ns, sa, items);
      forall i | 0 <= i < |items| ensures Mountable(nodes, attrs, items[i]) <==> MayMount(nodes, ns, sa, items[i]) {
        LegalByFirst(items[i].file);
      }
    }

    /** A complaint about an item, spelled out for the pod that asks: an illegal name whatever the
        vault holds, a missing path whatever the rules say, a denied path otherwise. */
    lemma ComplaintExactly(attrs: map<string, string>, ns: string, sa: string, items: seq<Item>, nodes: Nodes,
                           item: Item, error: MountError)
      requires Asks(attrs, ns, sa, items)
      ensures Complaint(nodes, attrs, item, error) <==>
              var legal := '/' !in item.file && '\\' !in item.file && (item.file == "" || item.file[0] != '.');
              if !legal then error == InvalidFileName(item.file)
              else if item.path !in nodes then error == NotFound(item.path)
              else error == AccessDenied(item.path) && !MayMount(nodes, ns, sa, item)
    {
      AskedIdentity(attrs, ns, sa, items);
      LegalByFirst(item.file);
    }

    /** Whatever pod asks, and for whatever items: it gets them iff it may mount all of them, and
        then exactly the values stored at their paths, in order, readable by everybody. */
    ghost predicate DecidedByPod(response: Result<MountResponse, MountError>, attrs: map<string, string>,
                                 nodes: Nodes) {
      forall ns, sa, items | Asks(attrs, ns, sa, items) :: DecidedFor(response, nodes, ns, sa, items)
    }

    predicate DecidedFor(response: Result<MountResponse, MountError>, nodes: Nodes, ns: string, sa: string,
                         items: seq<Item>) {
      && (response.Ok? <==> forall i | 0 <= i < |items| :: MayMount(nodes, ns, sa, items[i]))
      && (response.Ok? ==>
            && |response.value.files| == |response.value.versions| == |items|
            && forall i | 0 <= i < |items| ::
                 && items[i].path in nodes
                 && response.value.files[i] == File(items[i].file, 6 * 64 + 4 * 8 + 4, nodes[items[i].path].value)
                 && response.value.versions[i] == ObjectVersion(items[i].file, "latest"))
    }

    lemma CollectDecides(response: Result<MountResponse, MountError>, attrs: map<string, string>, nodes: Nodes)
      requires response.Ok? <==> AllMountable(nodes, attrs, RequestedItems(Attribute(attrs, "secrets")))
      requires response.Ok? ==> Delivers(response.value, nodes, RequestedItems(Attribute(attrs, "secrets")))
      ensures DecidedByPod(response, attrs, nodes)
    {
      forall ns, sa, items | Asks(attrs, ns, sa, items) ensures DecidedFor(response, nodes, ns, sa, items) {
        AskedIdentity(attrs, ns, sa, items);
        AskedIsDecided(attrs, ns, sa, items, nodes);
      }
    }

    /** Mount. `loaded` is what LoadAndDecrypt gave this call (if it came that far): the
        normalized replay of the commits up to `moment`. The call succeeds iff every requested
        item is mountable from that one tree, and then returns exactly its values in request
        order; otherwise it returns no file. It writes nothing in either case. */
    method Mount(me: nat, attributes: Option<map<string, string>>, env: Turn)
        returns (response: Result<MountResponse, MountError>, ghost loaded: Option<Nodes>,
                 ghost moment: nat, ghost order: seq<string>)
      requires manager.Valid() && me !in manager.cluster.sys.calls && ForeignTurn(env, me)
      modifies manager, manager.cluster
      ensures manager.Valid()
      ensures if !old(manager.isLocked) && attributes.Some? && GoodIdentity(attributes.value)
              then && manager.cluster.sys == Run(old(manager.cluster.sys), LoadSteps(me, manager.id, env))
                   && Forget(manager.cluster.sys, me) == Run(old(manager.cluster.sys), env.beforeGet)
              else manager.cluster.sys == old(manager.cluster.sys)
      ensures response == Err(StillLocked) <==> old(manager.isLocked)
      ensures response == Err(BadAttributes) <==> !old(manager.isLocked) && attributes.None?
      ensures !old(manager.isLocked) && attributes.Some? && !GoodIdentity(attributes.value) ==>
                response == Err(if Namespace(attributes.value) == "" || ServiceAccount(attributes.value) == ""
                                then IdentityRequired else InvalidIdentity)
      ensures !old(manager.isLocked) && attributes.Some? && GoodIdentity(attributes.value) && loaded.None? ==>
                response == Err(LoadFailed(if env.getFault == ApiFault then ApiError else CannotDecrypt))
      ensures attributes.Some? && loaded.Some? ==> DecidedByPod(response, attributes.value, loaded.value)
      ensures loaded.Some? ==>
                && |old(manager.cluster.sys).log| <= moment <= |manager.cluster.sys.log|
                && SnapshotAt(manager.cluster.sys, moment, order, loaded.value)
      ensures !old(manager.isLocked) && attributes.Some? && GoodIdentity(attributes.value) ==>
                && |old(manager.cluster.sys).log| <= moment <= |manager.cluster.sys.log| && old(manager.identity).Some?
                && (loaded.Some? <==>
                      env.getFault != ApiFault &&
                      TreeFor(SecretAt(manager.cluster.sys.origin, manager.cluster.sys.log, moment),
                        old(manager.identity).value).Some?)
      ensures response.Ok? <==>
                && attributes.Some? && GoodIdentity(attributes.value) && loaded.Some?
                && AllMountable(loaded.value, attributes.value, RequestedItems(Attribute(attributes.value, "secrets")))
      ensures response.Ok? ==>
                Delivers(response.value, loaded.value, RequestedItems(Attribute(attributes.value, "secrets")))
      ensures response.Ok? && CanonicalKeys(loaded.value) ==>
                AllGranted(attributes.value, RequestedItems(Attribute(attributes.value, "secrets")))
      ensures response.Err? && loaded.Some? && attributes.Some? ==>
                FirstComplaint(loaded.value, attributes.value, RequestedItems(Attribute(attributes.value, "secrets")),
                  response.error)
    {
      loaded, moment, order := None, 0, [];
      if manager.isLocked {
        return Err(StillLocked), loaded, moment, order;
      }
      if attributes.None? {
        return Err(BadAttributes), loaded, moment, order;
      }
      var attrs := attributes.value;
      var podNamespace, podSA := Namespace(attrs), ServiceAccount(attrs);
      if podNamespace == "" || podSA == "" {
        return Err(IdentityRequired), loaded, moment, order;
      }
      if !CleanIdentity(podNamespace) || !CleanIdentity(podSA) {
        return Err(InvalidIdentity), loaded, moment, order;
      }
      var result;
      result, moment, order := manager.LoadAndDecrypt(me, env);
      if result.Err? {
        return Err(LoadFailed(result.error)), loaded, moment, order;
      }
      loaded := Some(result.value);
      response := Collect(result.value, attrs);
      CollectDecides(response, attrs, result.value);
      if response.Ok? && CanonicalKeys(result.value) {
        DeliveredIsGranted(result.value, attrs, Attribute(attrs, "secrets"));
      }
    }

    /** The loop over the requested items. */
    method Collect(nodes: Nodes, attrs: map<string, string>) returns (response: Result<MountResponse, MountError>)
      ensures response.Ok? <==> AllMountable(nodes, attrs, RequestedItems(Attribute(attrs, "secrets")))
      ensures response.Ok? ==> Delivers(response.value, nodes, RequestedItems(Attribute(attrs, "secrets")))
      ensures response.Err? ==>
                FirstComplaint(nodes, attrs, RequestedItems(Attribute(attrs, "secrets")), response.error)
    {
      var requests := Split(Attribute(attrs, "secrets"), ',');
      var files: seq<File>, versions: seq<ObjectVersion> := [], [];
      for i := 0 to |requests|
        invariant AllMountable(nodes, attrs, ParseItems(requests[..i]))
        invariant Delivers(MountResponse(files, versions), nodes, ParseItems(requests[..i]))
      {
        FilterMapStep(requests, i, ParseItem);
        var parsed := ParseItem(requests[i]);
        if parsed.None? {
          continue;
        }
        ghost var before := ParseItems(requests[..i]);
        var mounted := MountItem(nodes, attrs, parsed.value);
        if mounted.Err? {
          ComplainAt(nodes, attrs, ParseItems(requests), |before|, mounted.error);
          return Err(mounted.error);
        }
        DeliverMore(MountResponse(files, versions), nodes, attrs, before, parsed.value);
        files := files + [mounted.value.0];
        versions := versions + [mounted.value.1];
      }
      assert requests[..|requests|] == requests;
      return Ok(MountResponse(files, versions));
    }

    /** One item: its name, its existence and the grant are checked in this order. */
    method MountItem(nodes: Nodes, attrs: map<string, string>, item: Item)
        returns (mounted: Result<(File, ObjectVersion), MountError>)
      ensures mounted.Ok? <==> Mountable(nodes, attrs, item)
      ensures mounted.Ok? ==>
                && mounted.value.0 == File(item.file, FILE_MODE, nodes[item.path].value)
                && mounted.value.1 == ObjectVersion(item.file, "latest")
      ensures mounted.Err? ==> Complaint(nodes, attrs, item, mounted.error)
    {
      var Item(fileName, vaultPath) := item;
      if '/' in fileName || '\\' in fileName || fileName == ".." || "." <= fileName {
        return Err(InvalidFileName(fileName));
      }
      if vaultPath !in nodes {
        return Err(NotFound(vaultPath));
      }
      if !MayAccess(Namespace(attrs), ServiceAccount(attrs), vaultPath) {
        return Err(AccessDenied(vaultPath));
      }
      return Ok((File(fileName, FILE_MODE, nodes[vaultPath].value), ObjectVersion(fileName, "latest")));
    }

    lemma ComplainAt(nodes: Nodes, attrs: map<string, string>, items: seq<Item>, i: nat, error: MountError)
      requires i < |items| && AllMountable(nodes, attrs, items[..i]) && Complaint(nodes, attrs, items[i], error)
      ensures FirstComplaint(nodes, attrs, items, error) && !AllMountable(nodes, attrs, items)
    {
      assert !Mountable(nodes, attrs, items[i]);
    }

    lemma DeliverMore(response: MountResponse, nodes: Nodes, attrs: map<string, string>, items: seq<Item>, item: Item)
      requires AllMountable(nodes, attrs, items) && Delivers(response, nodes, items) && Mountable(nodes, attrs, item)
      ensures AllMountable(nodes, attrs, items + [item])
      ensures Delivers(MountResponse(response.files + [File(item.file, FILE_MODE, nodes[item.path].value)],
                                     response.versions + [ObjectVersion(item.file, "latest")]), nodes, items + [item])
    {
    }

    predicate AllMountable(nodes: Nodes, attrs: map<string, string>, items: seq<Item>) {
      forall i | 0 <= i < |items| :: Mountable(nodes, attrs, items[i])
    }

    /** One file and one version per item, in order, with the stored value. */
    predicate Delivers(response: MountResponse, nodes: Nodes, items: seq<Item>) {
      && |response.files| == |response.versions| == |items|
      && (forall i | 0 <= i < |items| ::
            items[i].path in nodes && response.files[i] == File(items[i].file, FILE_MODE, nodes[items[i].path].value) &&
            response.versions[i] == ObjectVersion(items[i].file, "latest"))
    }

    predicate FirstComplaint(nodes: Nodes, attrs: map<string, string>, items: seq<Item>, error: MountError) {
      exists i | 0 <= i < |items| :: AllMountable(nodes, attrs, items[..i]) && Complaint(nodes, attrs, items[i], error)
    }
  }
}
