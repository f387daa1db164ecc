/** The Bootstrap 5 compatibility layer for legacy markup and legacy jQuery
    plugin calls: `data-<x>` attributes get their `data-bs-<x>` twins, and
    `$(el).modal('show')`-style calls are dispatched to Bootstrap 5 instances.

    Bootstrap's component classes are not part of this model: creating or
    fetching an instance (`getOrCreateInstance`) and asking whether an
    instance has a method are parameters. */
module BootstrapCompat {
  import opened Wrappers

  // ---------------------------------------------------------------------
  // Legacy data attributes.

  /** `LEGACY_DATA_ATTRS`: the legacy suffix and its Bootstrap 5 suffix. */
  const LegacyDataAttrs: seq<(string, string)> := [
    ("toggle", "bs-toggle"), ("target", "bs-target"), ("dismiss", "bs-dismiss"),
    ("parent", "bs-parent"), ("placement", "bs-placement"), ("container", "bs-container"),
    ("trigger", "bs-trigger"), ("offset", "bs-offset"), ("title", "bs-title"),
    ("content", "bs-content"), ("spy", "bs-spy")]

  /** The attribute name `data-<legacy>` of the i-th pair. */
  function LegacyAttr(i: nat): string
    requires i < |LegacyDataAttrs|
  {
    "data-" + LegacyDataAttrs[i].0
  }

  /** The attribute name `data-<modern>` of the i-th pair. */
  function ModernAttr(i: nat): string
    requires i < |LegacyDataAttrs|
  {
    "data-" + LegacyDataAttrs[i].1
  }

  /** No legacy name is a modern name, and the pairs name distinct attributes. */
  lemma TableFacts()
    ensures forall i, j :: 0 <= i < |LegacyDataAttrs| && 0 <= j < |LegacyDataAttrs| ==> LegacyAttr(i) != ModernAttr(j)
    ensures forall i, j :: 0 <= i < j < |LegacyDataAttrs| ==> ModernAttr(i) != ModernAttr(j)
  {
    forall i, j | 0 <= i < |LegacyDataAttrs| && 0 <= j < |LegacyDataAttrs|
      ensures LegacyAttr(i) != ModernAttr(j)
    {
      assert ModernAttr(j)[5] == 'b';
      assert LegacyAttr(i)[5] != 'b';
    }
    forall i, j | 0 <= i < j < |LegacyDataAttrs|
      ensures ModernAttr(i) != ModernAttr(j)
    {
      var a, b := LegacyDataAttrs[i].1, LegacyDataAttrs[j].1;
      assert ModernAttr(i)[5..] == a;
      assert ModernAttr(j)[5..] == b;
      assert |a| != |b| || a[3] != b[3] || a[4] != b[4];
    }
  }

  /** One step of `convertElementAttributes`: the i-th pair. */
  function ConvertPair(attrs: map<string, string>, i: nat): map<string, string>
    requires i < |LegacyDataAttrs|
  {
    if LegacyAttr(i) in attrs && ModernAttr(i) !in attrs
    then attrs[ModernAttr(i) := attrs[LegacyAttr(i)]]
    else attrs
  }

  /** The attributes after the first n pairs were handled, in table order. */
  function ConvertFirst(attrs: map<string, string>, n: nat): map<string, string>
    requires n <= |LegacyDataAttrs|
    decreases n
  {
    if n == 0 then attrs else ConvertPair(ConvertFirst(attrs, n - 1), n - 1)
  }

  /** What the first n pairs did: kept every attribute with its value, added
      `data-<modern>` with the legacy value exactly where the legacy attribute
      was present and the modern one absent, and added nothing else. */
  lemma {:induction false} ConvertFirstSpec(attrs: map<string, string>, n: nat)
    requires n <= |LegacyDataAttrs|
    ensures var r := ConvertFirst(attrs, n);
      (forall k :: k in attrs ==> k in r && r[k] == attrs[k]) &&
      (forall j :: 0 <= j < n && LegacyAttr(j) in attrs && ModernAttr(j) !in attrs ==>
         ModernAttr(j) in r && r[ModernAttr(j)] == attrs[LegacyAttr(j)]) &&
      (forall k :: k in r && k !in attrs ==> exists j :: 0 <= j < n && k == ModernAttr(j) && LegacyAttr(j) in attrs)
    decreases n
  {
    if n > 0 {
      TableFacts();
      ConvertFirstSpec(attrs, n - 1);
      var prev := ConvertFirst(attrs, n - 1);
      var r := ConvertFirst(attrs, n);
      assert r == ConvertPair(prev, n - 1);
      if LegacyAttr(n - 1) in prev && ModernAttr(n - 1) !in prev {
        forall k | k in r && k !in attrs
          ensures exists j :: 0 <= j < n && k == ModernAttr(j) && LegacyAttr(j) in attrs
        {
          if k == ModernAttr(n - 1) {
          } else {
            assert k in prev;
          }
        }
      }
    }
  }

  /** `convertElementAttributes` as a function of the attributes: every pair
      handled, in table order. */
  function Converted(attrs: map<string, string>): (r: map<string, string>)
    ensures forall k :: k in attrs ==> k in r && r[k] == attrs[k]
    ensures forall j :: 0 <= j < |LegacyDataAttrs| && LegacyAttr(j) in attrs && ModernAttr(j) !in attrs ==>
      ModernAttr(j) in r && r[ModernAttr(j)] == attrs[LegacyAttr(j)]
    ensures forall k :: k in r && k !in attrs ==>
      exists j :: 0 <= j < |LegacyDataAttrs| && k == ModernAttr(j) && LegacyAttr(j) in attrs
  {
    ConvertFirstSpec(attrs, |LegacyDataAttrs|);
    ConvertFirst(attrs, |LegacyDataAttrs|)
  }

  /** The modern attribute of a pair after conversion: an existing one keeps
      its value, a missing one gets the legacy value when there is one and
      stays missing otherwise. */
  lemma ModernAttrRule(attrs: map<string, string>, i: nat)
    requires i < |LegacyDataAttrs|
    ensures ModernAttr(i) in attrs ==> ModernAttr(i) in Converted(attrs) && Converted(attrs)[ModernAttr(i)] == attrs[ModernAttr(i)]
    ensures ModernAttr(i) !in attrs && LegacyAttr(i) in attrs ==>
      ModernAttr(i) in Converted(attrs) && Converted(attrs)[ModernAttr(i)] == attrs[LegacyAttr(i)]
    ensures ModernAttr(i) !in attrs && LegacyAttr(i) !in attrs ==> ModernAttr(i) !in Converted(attrs)
  {
    TableFacts();
  }

  /** An attribute that is no pair's modern name is neither added nor changed. */
  lemma OutsideTableUntouched(attrs: map<string, string>, k: string)
    requires forall j :: 0 <= j < |LegacyDataAttrs| ==> k != ModernAttr(j)
    ensures k in Converted(attrs) <==> k in attrs
    ensures k in attrs ==> Converted(attrs)[k] == attrs[k]
  {
  }

  /** Markup without legacy attributes is left exactly as it is. */
  lemma NoLegacyUnchanged(attrs: map<string, string>)
    requires forall j :: 0 <= j < |LegacyDataAttrs| ==> LegacyAttr(j) !in attrs
    ensures Converted(attrs) == attrs
  {
  }

  /** Conversion adds no legacy attribute, and leaves every pair whose legacy
      attribute is present with its modern attribute present. */
  lemma ConvertedPairs(attrs: map<string, string>)
    ensures forall j :: 0 <= j < |LegacyDataAttrs| ==> (LegacyAttr(j) in Converted(attrs) <==> LegacyAttr(j) in attrs)
    ensures forall j :: 0 <= j < |LegacyDataAttrs| && LegacyAttr(j) in attrs ==> ModernAttr(j) in Converted(attrs)
  {
    TableFacts();
  }

  /** Converting twice gives the attributes of converting once. */
  lemma ConvertedIdempotent(attrs: map<string, string>)
    ensures Converted(Converted(attrs)) == Converted(attrs)
  {
    ConvertedPairs(attrs);
    var r := Converted(attrs);
    assert Converted(r).Keys == r.Keys;
  }

  /** Whether an element matches the comma-joined `[data-<legacy>]` selector. */
  predicate MatchesLegacySelector(attrs: map<string, string>) {
    exists j :: 0 <= j < |LegacyDataAttrs| && LegacyAttr(j) in attrs
  }

  /** Whether a node has `querySelectorAll`: elements, documents and fragments. */
  predicate CanQuery(nodeType: int) {
    nodeType == 1 || nodeType == 9 || nodeType == 11
  }

  // ---------------------------------------------------------------------
  // Nodes.

  /** Config object of a legacy plugin call: the truthiness of each property
      whose value is not `undefined`. */
  type Config = map<string, bool>

  /** A Bootstrap 5 component instance, with the config it was created with. */
  datatype Instance = Instance(config: Option<Config>)

  /** A DOM node: its attributes, its element descendants in document order,
      and per component name the Bootstrap instance attached to it, together
      with the log of instance methods the plugins invoked on it. */
  class Node {
    var attrs: map<string, string>
    const nodeType: int
    const descendants: seq<Node>
    var instances: map<string, Instance>
    var invoked: seq<(string, string)>

    constructor (nodeType: int, attrs: map<string, string>, descendants: seq<Node>)
      ensures this.nodeType == nodeType && this.attrs == attrs && this.descendants == descendants
      ensures instances == map[] && invoked == []
    {
      this.nodeType := nodeType;
      this.attrs := attrs;
      this.descendants := descendants;
      instances := map[];
      invoked := [];
    }
  }

  /** A node and its element descendants. */
  function Subtree(t: Node?): set<Node> {
    if t == null then {} else {t} + set d | d in t.descendants
  }

  /** A well-formed subtree: the node is not its own descendant and no descendant is listed twice. */
  predicate TreeShaped(t: Node) {
    t !in t.descendants && forall i, j :: 0 <= i < j < |t.descendants| ==> t.descendants[i] != t.descendants[j]
  }

  /** `convertElementAttributes`. */
  method ConvertElementAttributes(e: Node)
    modifies e
    ensures e.attrs == Converted(old(e.attrs))
    ensures e.instances == old(e.instances) && e.invoked == old(e.invoked)
  {
    var i := 0;
    while i < |LegacyDataAttrs|
      invariant 0 <= i <= |LegacyDataAttrs|
      invariant e.attrs == ConvertFirst(old(e.attrs), i)
      invariant e.instances == old(e.instances) && e.invoked == old(e.invoked)
    {
      var legacyAttr := "data-" + LegacyDataAttrs[i].0;
      var modernAttr := "data-" + LegacyDataAttrs[i].1;
      if legacyAttr in e.attrs && modernAttr !in e.attrs {
        e.attrs := e.attrs[modernAttr := e.attrs[legacyAttr]];
      }
      i := i + 1;
    }
  }

  /** The `forEach` over the nodes the selector query returned: each one that
      carries a legacy attribute is converted, the others are left alone. */
  method ConvertMatching(matched: seq<Node>)
    requires forall i, j :: 0 <= i < j < |matched| ==> matched[i] != matched[j]
    modifies set n | n in matched
    ensures forall k :: 0 <= k < |matched| ==>
      matched[k].attrs == (if MatchesLegacySelector(old(matched[k].attrs)) then Converted(old(matched[k].attrs)) else old(matched[k].attrs))
    ensures forall k :: 0 <= k < |matched| ==> matched[k].instances == old(matched[k].instances) && matched[k].invoked == old(matched[k].invoked)
  {
    var i := 0;
    while i < |matched|
      invariant 0 <= i <= |matched|
      invariant forall k :: 0 <= k < i ==>
        matched[k].attrs == (if MatchesLegacySelector(old(matched[k].attrs)) then Converted(old(matched[k].attrs)) else old(matched[k].attrs))
      invariant forall k :: i <= k < |matched| ==> matched[k].attrs == old(matched[k].attrs)
      invariant forall k :: 0 <= k < |matched| ==> matched[k].instances == old(matched[k].instances) && matched[k].invoked == old(matched[k].invoked)
    {
      if MatchesLegacySelector(matched[i].attrs) {
        ConvertElementAttributes(matched[i]);
      }
      i := i + 1;
    }
  }

  /** `upgradeLegacyDataAttributes(root)`: nothing without a document; otherwise
      every descendant of `root || document` that matches the legacy selector
      is converted, and so is the target itself when it is an element. */
  method UpgradeLegacyDataAttributes(root: Node?, document: Node?)
    requires document != null ==> TreeShaped(if root != null then root else document)
    modifies if document == null then {} else Subtree(if root != null then root else document)
    ensures document != null ==>
      var t := if root != null then root else document;
      (forall k :: 0 <= k < |t.descendants| ==>
         t.descendants[k].attrs == (if CanQuery(t.nodeType) && MatchesLegacySelector(old(t.descendants[k].attrs))
                                    then Converted(old(t.descendants[k].attrs)) else old(t.descendants[k].attrs))) &&
      t.attrs == (if t.nodeType == 1 then Converted(old(t.attrs)) else old(t.attrs))
    ensures forall n :: n in Subtree(if document == null then null else if root != null then root else document) ==>
      n.instances == old(n.instances) && n.invoked == old(n.invoked)
  {
    if document == null {
      return;
    }
    var target := if root != null then root else document;
    if CanQuery(target.nodeType) {
      ConvertMatching(target.descendants);
    }
    if target.nodeType == 1 {
      ConvertElementAttributes(target);
    }
  }

  /** Converted markup still matches the legacy selector exactly when the
      original did, and converts to itself; so every node that one upgrade
      leaves behind is unchanged by a second one. */
  lemma UpgradeTwiceSameAsOnce(attrs: map<string, string>)
    ensures Converted(Converted(attrs)) == Converted(attrs)
    ensures MatchesLegacySelector(Converted(attrs)) <==> MatchesLegacySelector(attrs)
  {
    ConvertedIdempotent(attrs);
    ConvertedPairs(attrs);
  }

  // ---------------------------------------------------------------------
  // Legacy jQuery plugins.

  /** A `COMPONENTS` entry without its constructor: the method a non-string
      call runs, and the config property that can switch it off. */
  datatype Descriptor = Descriptor(defaultMethod: Option<string>, optionFlag: Option<string>)

  /** `COMPONENTS`, in registration order. */
  const Components: seq<(string, Descriptor)> := [
    ("dropdown", Descriptor(None, None)),
    ("collapse", Descriptor(Some("toggle"), Some("toggle"))),
    ("modal", Descriptor(Some("show"), Some("show"))),
    ("tab", Descriptor(Some("show"), None)),
    ("tooltip", Descriptor(None, None)),
    ("popover", Descriptor(None, None))]

  /** The first argument of a plugin call, by its `typeof`: a string, a
      non-null object, `null` (whose `typeof` is also `'object'`), or anything else. */
  datatype PluginArg = StringArg(s: string) | ObjectArg(config: Config) | NullArg | OtherArg

  /** `configObject`: the argument when it is a non-null object. */
  function ConfigObject(option: PluginArg): (c: Option<Config>)
    ensures c.Some? <==> option.ObjectArg?
    ensures c.Some? ==> c.value == option.config
  {
    if option.ObjectArg? then Some(option.config) else None
  }

  /** `shouldInvoke`: the default method runs unless a config object sets the
      option flag to a falsy value. */
  function ShouldInvoke(configObject: Option<Config>, optionFlag: Option<string>): (r: bool)
    ensures !r <==> configObject.Some? && optionFlag.Some? && optionFlag.value in configObject.value && !configObject.value[optionFlag.value]
  {
    configObject.None? || optionFlag.None? || optionFlag.value !in configObject.value || configObject.value[optionFlag.value]
  }

  /** The instance the plugin works on: `getInstance`, then `getOrCreateInstance`
      when there is none or when a config object was passed. */
  function AcquireInstance(existing: Option<Instance>, configObject: Option<Config>,
                           getOrCreate: (Option<Instance>, Option<Config>) -> Instance): (inst: Instance)
    ensures existing.Some? && configObject.None? ==> inst == existing.value
  {
    if existing.None? then getOrCreate(existing, configObject)
    else if configObject.Some? then getOrCreate(existing, configObject)
    else existing.value
  }

  /** The instance method the plugin invokes for one element, if any. */
  function MethodToCall(desc: Descriptor, option: PluginArg, inst: Instance,
                        isMethod: (Instance, string) -> bool): (m: Option<string>)
    ensures option.StringArg? ==> (m.Some? <==> isMethod(inst, option.s)) && (m.Some? ==> m.value == option.s)
    ensures !option.StringArg? ==>
      (m.Some? <==> desc.defaultMethod.Some? && isMethod(inst, desc.defaultMethod.value) &&
                    ShouldInvoke(ConfigObject(option), desc.optionFlag)) &&
      (m.Some? ==> m.value == desc.defaultMethod.value)
  {
    match option
    case StringArg(s) => if isMethod(inst, s) then Some(s) else None
    case _ =>
      if desc.defaultMethod.None? || !isMethod(inst, desc.defaultMethod.value) then None
      else if ShouldInvoke(ConfigObject(option), desc.optionFlag) then desc.defaultMethod
      else None
  }

  /** A string command never runs the default method unless it names it. */
  lemma CommandNeverDefaults(desc: Descriptor, s: string, inst: Instance, isMethod: (Instance, string) -> bool)
    requires desc.defaultMethod.Some? && s != desc.defaultMethod.value
    ensures MethodToCall(desc, StringArg(s), inst, isMethod) != desc.defaultMethod
  {
  }

  /** Dropdown, tooltip and popover have no default method: only string commands run anything. */
  lemma NoDefaultMethod(i: nat, option: PluginArg, inst: Instance, isMethod: (Instance, string) -> bool)
    requires i < |Components| && Components[i].0 in {"dropdown", "tooltip", "popover"}
    requires !option.StringArg?
    ensures MethodToCall(Components[i].1, option, inst, isMethod) == None
  {
  }

  /** `$(el).modal({show: false})` and `$(el).collapse({toggle: false})` only
      set up the instance; `$(el).modal()`, `$(el).modal(null)` and
      `$(el).tab({show: false})` run `show`. */
  lemma DefaultMethodExamples(inst: Instance, isMethod: (Instance, string) -> bool)
    requires isMethod(inst, "show") && isMethod(inst, "toggle")
    ensures MethodToCall(Components[2].1, ObjectArg(map["show" := false]), inst, isMethod) == None
    ensures MethodToCall(Components[1].1, ObjectArg(map["toggle" := false]), inst, isMethod) == None
    ensures MethodToCall(Components[2].1, OtherArg, inst, isMethod) == Some("show")
    ensures MethodToCall(Components[2].1, NullArg, inst, isMethod) == Some("show")
    ensures MethodToCall(Components[3].1, ObjectArg(map["show" := false]), inst, isMethod) == Some("show")
  {
  }

  predicate DistinctNodes(elements: seq<Node>) {
    forall i, j :: 0 <= i < j < |elements| ==> elements[i] != elements[j]
  }

  /** The body of the plugin `registerLegacyPlugin` installs as `$.fn[name]`,
      run over the elements of the jQuery collection. */
  method RunPlugin(name: string, desc: Descriptor, elements: seq<Node>, option: PluginArg,
                   getOrCreate: (Option<Instance>, Option<Config>) -> Instance,
                   isMethod: (Instance, string) -> bool)
    requires DistinctNodes(elements)
    modifies set e | e in elements
    ensures forall e :: e in elements ==>
      var existing := if name in old(e.instances) then Some(old(e.instances)[name]) else None;
      var inst := AcquireInstance(existing, ConfigObject(option), getOrCreate);
      e.instances == old(e.instances)[name := inst] &&
      e.invoked == old(e.invoked) + (match MethodToCall(desc, option, inst, isMethod)
                                     case Some(m) => [(name, m)]
                                     case None => []) &&
      e.attrs == old(e.attrs)
  {
    var i := 0;
    while i < |elements|
      invariant 0 <= i <= |elements|
      invariant forall k :: 0 <= k < i ==> var e := elements[k];
        var existing := if name in old(e.instances) then Some(old(e.instances)[name]) else None;
        var inst := AcquireInstance(existing, ConfigObject(option), getOrCreate);
        e.instances == old(e.instances)[name := inst] &&
        e.invoked == old(e.invoked) + (match MethodToCall(desc, option, inst, isMethod)
                                       case Some(m) => [(name, m)]
                                       case None => []) &&
        e.attrs == old(e.attrs)
      invariant forall k :: i <= k < |elements| ==>
        elements[k].instances == old(elements[k].instances) && elements[k].invoked == old(elements[k].invoked) &&
        elements[k].attrs == old(elements[k].attrs)
    {
      var element := elements[i];
      var isCommand := option.StringArg?;
      var configObject := if !isCommand && option.ObjectArg? then Some(option.config) else None;
      var instance: Instance;
      if name !in element.instances {
        instance := getOrCreate(None, configObject);
      } else if configObject.Some? {
        instance := getOrCreate(Some(element.instances[name]), configObject);
      } else {
        instance := element.instances[name];
      }
      element.instances := element.instances[name := instance];
      if isCommand {
        if isMethod(instance, option.s) {
          element.invoked := element.invoked + [(name, option.s)];
        }
      } else if desc.defaultMethod.Some? && isMethod(instance, desc.defaultMethod.value) {
        var optionFlag := desc.optionFlag;
        var shouldInvoke := configObject.None? || optionFlag.None? ||
                            optionFlag.value !in configObject.value || configObject.value[optionFlag.value];
        if shouldInvoke {
          element.invoked := element.invoked + [(name, desc.defaultMethod.value)];
        }
      }
      i := i + 1;
    }
  }

  // ---------------------------------------------------------------------
  // Installation.

  /** What `window.bootstrap` holds: the components this bundle exports, or whatever was there before. */
  datatype BootstrapNamespace = BundledComponents | OtherNamespace(id: nat)

  /** The window globals the layer reads and sets (`window.bootstrap` is None while falsy). */
  class Window {
    var compatLoaded: bool
    var bootstrap: Option<BootstrapNamespace>

    constructor (bootstrap: Option<BootstrapNamespace>)
      ensures !compatLoaded && this.bootstrap == bootstrap
    {
      compatLoaded := false;
      this.bootstrap := bootstrap;
    }
  }

  /** jQuery's `$.fn`: the plugins registered by name. */
  class JQueryFn {
    var plugins: map<string, Descriptor>

    constructor ()
      ensures plugins == map[]
    {
      plugins := map[];
    }
  }

  /** `$.fn` after the first n components were registered. */
  function RegisterFirst(plugins: map<string, Descriptor>, n: nat): map<string, Descriptor>
    requires n <= |Components|
    decreases n
  {
    if n == 0 then plugins else RegisterFirst(plugins, n - 1)[Components[n - 1].0 := Components[n - 1].1]
  }

  /** After registration every component's plugin is in `$.fn` with its
      descriptor, and every other entry is as it was. */
  lemma {:induction false} RegisterFirstSpec(plugins: map<string, Descriptor>, n: nat)
    requires n <= |Components|
    ensures forall i :: 0 <= i < n ==>
      Components[i].0 in RegisterFirst(plugins, n) && RegisterFirst(plugins, n)[Components[i].0] == Components[i].1
    ensures forall k :: (forall i :: 0 <= i < n ==> k != Components[i].0) ==>
      (k in RegisterFirst(plugins, n) <==> k in plugins) &&
      (k in plugins ==> RegisterFirst(plugins, n)[k] == plugins[k])
    decreases n
  {
    if n > 0 {
      RegisterFirstSpec(plugins, n - 1);
    }
  }

  /** Registering the plugins a second time changes nothing. */
  lemma RegisterTwice(plugins: map<string, Descriptor>)
    ensures RegisterFirst(RegisterFirst(plugins, |Components|), |Components|) == RegisterFirst(plugins, |Components|)
  {
    var once := RegisterFirst(plugins, |Components|);
    RegisterFirstSpec(plugins, |Components|);
    RegisterFirstSpec(once, |Components|);
    var twice := RegisterFirst(once, |Components|);
    forall k | k in twice
      ensures k in once && twice[k] == once[k]
    {
      if i :| 0 <= i < |Components| && k == Components[i].0 {
      }
    }
    assert twice.Keys == once.Keys;
  }

  /** The module body: unless the global flag is already set, set it, keep a
      truthy `window.bootstrap` (or install the bundled components), register
      the legacy plugins and upgrade the document's markup. Without a window
      the plugins are registered all the same. */
  method Install(window: Window?, fn: JQueryFn, document: Node?)
    requires document != null ==> TreeShaped(document)
    modifies window, fn, Subtree(document)
    ensures window != null && old(window.compatLoaded) ==>
      window.compatLoaded && window.bootstrap == old(window.bootstrap) && fn.plugins == old(fn.plugins) &&
      forall n :: n in Subtree(document) ==> n.attrs == old(n.attrs)
    ensures !(window != null && old(window.compatLoaded)) ==>
      fn.plugins == RegisterFirst(old(fn.plugins), |Components|) &&
      (window != null ==>
         window.compatLoaded && window.bootstrap == (if old(window.bootstrap).Some? then old(window.bootstrap) else Some(BundledComponents))) &&
      (document != null ==>
         (forall k :: 0 <= k < |document.descendants| ==>
            document.descendants[k].attrs ==
              (if CanQuery(document.nodeType) && MatchesLegacySelector(old(document.descendants[k].attrs))
               then Converted(old(document.descendants[k].attrs)) else old(document.descendants[k].attrs))) &&
         document.attrs == (if document.nodeType == 1 then Converted(old(document.attrs)) else old(document.attrs)))
    ensures forall n :: n in Subtree(document) ==> n.instances == old(n.instances) && n.invoked == old(n.invoked)
  {
    var alreadyLoaded := window != null && window.compatLoaded;
    if alreadyLoaded {
      return;
    }
    if window != null {
      window.compatLoaded := true;
      if window.bootstrap.None? {
        window.bootstrap := Some(BundledComponents);
      }
    }
    var i := 0;
    while i < |Components|
      invariant 0 <= i <= |Components|
      invariant fn.plugins == RegisterFirst(old(fn.plugins), i)
      invariant window != null ==>
        window.compatLoaded && window.bootstrap == (if old(window.bootstrap).Some? then old(window.bootstrap) else Some(BundledComponents))
      invariant forall n :: n in Subtree(document) ==>
        n.attrs == old(n.attrs) && n.instances == old(n.instances) && n.invoked == old(n.invoked)
    {
      fn.plugins := fn.plugins[Components[i].0 := Components[i].1];
      i := i + 1;
    }
    if document != null {
      UpgradeLegacyDataAttributes(document, document);
    }
  }
}
