/** Configuration of the tilt effect: the JavaScript values an option can hold, the
    per-option merge of overrides, `data-tilt-*` attributes and built-in defaults,
    the boolean readings the constructor applies, and the typed configuration the
    arithmetic uses. */
module TiltSettings {
  import opened Optional

  /** A JavaScript value as it can appear in a settings object. A DOM node is
      identified by a number; `JsObject` is any other object, such as the array
      or object `JSON.parse` returns for `[]` or `{}`. */
  datatype JsValue = JsUndefined | JsNull | JsBool(b: bool) | JsNum(n: real) | JsStr(s: string)
                   | JsNode(node: nat) | JsObject

  /** The recognised options and the built-in default of each. */
  const Defaults: map<string, JsValue> := map[
    "reverse" := JsBool(false),
    "max" := JsNum(15.0),
    "startX" := JsNum(0.0),
    "startY" := JsNum(0.0),
    "perspective" := JsNum(1000.0),
    "easing" := JsStr("cubic-bezier(.03,.98,.52,.99)"),
    "scale" := JsNum(1.0),
    "speed" := JsNum(300.0),
    "transition" := JsBool(true),
    "axis" := JsNull,
    "glare" := JsBool(false),
    "max-glare" := JsNum(1.0),
    "glare-prerender" := JsBool(false),
    "full-page-listening" := JsBool(false),
    "mouse-event-element" := JsNull,
    "reset" := JsBool(true),
    "reset-to-start" := JsBool(true),
    "gyroscope" := JsBool(true),
    "gyroscopeMinAngleX" := JsNum(-45.0),
    "gyroscopeMaxAngleX" := JsNum(45.0),
    "gyroscopeMinAngleY" := JsNum(-45.0),
    "gyroscopeMaxAngleY" := JsNum(45.0),
    "gyroscopeSamples" := JsNum(10.0)]

  /** The element attribute consulted for option `name`. */
  function AttributeName(name: string): string {
    "data-tilt-" + name
  }

  /** The value option `name` takes: the explicit override if the settings object
      has it, else the parsed `data-tilt-<name>` attribute (the raw attribute text
      when parsing fails), else the default. `attribute` is the element's attribute
      lookup and `parse` stands for `JSON.parse`, `None` meaning it threw. */
  function ResolveOption(name: string, overrides: map<string, JsValue>,
                         attribute: string -> Option<string>,
                         parse: string -> Option<JsValue>): (v: JsValue)
    requires name in Defaults
    ensures name in overrides ==> v == overrides[name]
    ensures name !in overrides && attribute(AttributeName(name)).None? ==> v == Defaults[name]
    ensures name !in overrides && attribute(AttributeName(name)).Some? ==>
              var text := attribute(AttributeName(name)).value;
              v == (if parse(text).Some? then parse(text).value else JsStr(text))
  {
    if name in overrides then overrides[name]
    else match attribute(AttributeName(name))
      case Some(text) => parse(text).GetOr(JsStr(text))
      case None => Defaults[name]
  }

  /** `extendSettings`: one entry per recognised option, resolved by priority;
      override keys that are not options are dropped. */
  function ExtendSettings(overrides: map<string, JsValue>, attribute: string -> Option<string>,
                          parse: string -> Option<JsValue>): (r: map<string, JsValue>)
    ensures r.Keys == Defaults.Keys
    ensures forall k :: k in overrides && k !in Defaults ==> k !in r
    ensures forall k :: k in Defaults && k in overrides ==> r[k] == overrides[k]
    ensures forall k :: k in Defaults && k !in overrides && attribute(AttributeName(k)).Some? ==>
              var text := attribute(AttributeName(k)).value;
              (parse(text).Some? ==> r[k] == parse(text).value) &&
              (parse(text).None? ==> r[k] == JsStr(text))
    ensures forall k :: k in Defaults && k !in overrides && attribute(AttributeName(k)).None? ==>
              r[k] == Defaults[k]
  {
    map k | k in Defaults :: ResolveOption(k, overrides, attribute, parse)
  }

  /** Resolving already-resolved settings again changes nothing: every option is
      then an explicit override, whatever the element's attributes say. */
  lemma ExtendSettingsIdempotent(overrides: map<string, JsValue>,
                                 attribute: string -> Option<string>, parse: string -> Option<JsValue>,
                                 attribute2: string -> Option<string>, parse2: string -> Option<JsValue>)
    ensures var s := ExtendSettings(overrides, attribute, parse);
            ExtendSettings(s, attribute2, parse2) == s
  {
    var s := ExtendSettings(overrides, attribute, parse);
    var t := ExtendSettings(s, attribute2, parse2);
    assert t.Keys == s.Keys;
    forall k | k in s ensures t[k] == s[k] {
      assert k in Defaults;
    }
  }

  /** With no overrides and no `data-tilt-*` attribute, every option takes its
      built-in default. */
  lemma DefaultsWhenUnset(attribute: string -> Option<string>, parse: string -> Option<JsValue>)
    requires forall k :: k in Defaults ==> attribute(AttributeName(k)).None?
    ensures ExtendSettings(map[], attribute, parse) == Defaults
  {
    var s := ExtendSettings(map[], attribute, parse);
    forall k | k in Defaults ensures s[k] == Defaults[k] {
      assert attribute(AttributeName(k)).None?;
    }
  }

  /** `VanillaTilt.isSettingTrue`: strict equality with `""`, `true` or `1`. */
  predicate IsSettingTrue(v: JsValue) {
    v == JsStr("") || v == JsBool(true) || v == JsNum(1.0)
  }

  /** A flag set only through its attribute is on exactly when the attribute text
      is empty or parses to `true`, `1` or the empty string. `parse` is required to
      reject the empty text, as `JSON.parse("")` throws. */
  lemma FlagFromAttribute(name: string, text: string, overrides: map<string, JsValue>,
                          attribute: string -> Option<string>, parse: string -> Option<JsValue>)
    requires name in Defaults && name !in overrides
    requires attribute(AttributeName(name)) == Some(text)
    requires parse("") == None
    ensures IsSettingTrue(ExtendSettings(overrides, attribute, parse)[name]) <==>
              text == "" || parse(text) == Some(JsBool(true)) || parse(text) == Some(JsNum(1.0))
              || parse(text) == Some(JsStr(""))
  {
    var v := ExtendSettings(overrides, attribute, parse)[name];
    if parse(text).Some? {
      assert v == parse(text).value;
      if text == "" { assert false; }
    } else {
      assert v == JsStr(text);
    }
  }

  /** JavaScript truthiness, which the constructor uses for `reverse` and the
      leave handler for `reset` instead of `IsSettingTrue`. */
  predicate Truthy(v: JsValue) {
    match v
    case JsUndefined => false
    case JsNull => false
    case JsBool(b) => b
    case JsNum(n) => n != 0.0
    case JsStr(s) => s != ""
    case JsNode(_) => true
    case JsObject => true
  }

  /** `isSettingTrue` and truthiness disagree both ways: the empty string is a
      set flag but falsy, while every other truthy value except `true` and `1`
      (a non-empty string such as `"yes"`, another number, a node, an array) is
      truthy but not a set flag. */
  lemma SettingTrueVersusTruthy(v: JsValue)
    ensures IsSettingTrue(v) <==> v == JsStr("") || (Truthy(v) && (v == JsBool(true) || v == JsNum(1.0)))
    ensures v == JsStr("") ==> IsSettingTrue(v) && !Truthy(v)
    ensures Truthy(v) && v != JsBool(true) && v != JsNum(1.0) ==> !IsSettingTrue(v)
  {
  }

  /** Which rotation `settings.axis` switches off: `"x"` zeroes the rotateX
      argument, `"y"` the rotateY argument, anything else neither. */
  datatype Axis = NoAxis | AxisX | AxisY

  /** The settings the tilt arithmetic and the handlers read, with every option
      the code does arithmetic on as a real. `perspective` and `scale` only ever
      reach the transform string, so they keep their JavaScript value. */
  datatype Config = Config(
    reverse: bool,
    max: real,
    startX: real,
    startY: real,
    perspective: JsValue,
    scale: JsValue,
    axis: Axis,
    glare: bool,
    maxGlare: real,
    glarePrerender: bool,
    fullPageListening: bool,
    mouseEventElement: JsValue,
    reset: bool,
    resetToStart: bool,
    gyroscope: bool,
    gyroMinX: real,
    gyroMaxX: real,
    gyroMinY: real,
    gyroMaxY: real,
    gyroscopeSamples: real)

  /** The options the code does arithmetic on. */
  const NumericOptions: set<string> := {
    "max", "startX", "startY", "max-glare",
    "gyroscopeMinAngleX", "gyroscopeMaxAngleX", "gyroscopeMinAngleY", "gyroscopeMaxAngleY",
    "gyroscopeSamples"}

  function NumberOf(v: JsValue): real {
    if v.JsNum? then v.n else 0.0
  }

  function AxisOf(v: JsValue): (a: Axis)
    ensures a == AxisX <==> v == JsStr("x")
    ensures a == AxisY <==> v == JsStr("y")
  {
    if v == JsStr("x") then AxisX else if v == JsStr("y") then AxisY else NoAxis
  }

  /** Reads resolved settings the way the constructor does: `reverse` by
      truthiness, the flags through `IsSettingTrue`, `axis` by strict equality.
      `None` when an arithmetic option does not hold a number. */
  function ToConfig(s: map<string, JsValue>): (c: Option<Config>)
    requires Defaults.Keys <= s.Keys
    ensures c.Some? <==> forall k :: k in NumericOptions ==> s[k].JsNum?
    ensures c.Some? ==>
              && (c.value.reverse <==> Truthy(s["reverse"]))
              && (c.value.glare <==> IsSettingTrue(s["glare"]))
              && (c.value.resetToStart <==> IsSettingTrue(s["reset-to-start"]))
              && (c.value.fullPageListening <==> IsSettingTrue(s["full-page-listening"]))
              && (c.value.gyroscope <==> IsSettingTrue(s["gyroscope"]))
              && (c.value.reset <==> Truthy(s["reset"]))
              && JsNum(c.value.max) == s["max"]
              && JsNum(c.value.startX) == s["startX"]
              && JsNum(c.value.startY) == s["startY"]
              && c.value.scale == s["scale"]
              && c.value.perspective == s["perspective"]
              && c.value.axis == AxisOf(s["axis"])
              && JsNum(c.value.maxGlare) == s["max-glare"]
              && (c.value.glarePrerender <==> IsSettingTrue(s["glare-prerender"]))
              && c.value.mouseEventElement == s["mouse-event-element"]
              && JsNum(c.value.gyroMinX) == s["gyroscopeMinAngleX"]
              && JsNum(c.value.gyroMaxX) == s["gyroscopeMaxAngleX"]
              && JsNum(c.value.gyroMinY) == s["gyroscopeMinAngleY"]
              && JsNum(c.value.gyroMaxY) == s["gyroscopeMaxAngleY"]
              && JsNum(c.value.gyroscopeSamples) == s["gyroscopeSamples"]
  {
    if forall k :: k in NumericOptions ==> s[k].JsNum? then
      Some(Config(
        reverse := Truthy(s["reverse"]),
        max := NumberOf(s["max"]),
        startX := NumberOf(s["startX"]),
        startY := NumberOf(s["startY"]),
        perspective := s["perspective"],
        scale := s["scale"],
        axis := AxisOf(s["axis"]),
        glare := IsSettingTrue(s["glare"]),
        maxGlare := NumberOf(s["max-glare"]),
        glarePrerender := IsSettingTrue(s["glare-prerender"]),
        fullPageListening := IsSettingTrue(s["full-page-listening"]),
        mouseEventElement := s["mouse-event-element"],
        reset := Truthy(s["reset"]),
        resetToStart := IsSettingTrue(s["reset-to-start"]),
        gyroscope := IsSettingTrue(s["gyroscope"]),
        gyroMinX := NumberOf(s["gyroscopeMinAngleX"]),
        gyroMaxX := NumberOf(s["gyroscopeMaxAngleX"]),
        gyroMinY := NumberOf(s["gyroscopeMinAngleY"]),
        gyroMaxY := NumberOf(s["gyroscopeMaxAngleY"]),
        gyroscopeSamples := NumberOf(s["gyroscopeSamples"])))
    else None
  }

  /** An empty attribute switches a flag read through `isSettingTrue` on (glare),
      but leaves one read by truthiness off (reverse): `data-tilt-glare=""` shows
      the glare while `data-tilt-reverse=""` does not reverse. */
  lemma EmptyAttributeReadings(attribute: string -> Option<string>, parse: string -> Option<JsValue>)
    requires attribute(AttributeName("glare")) == Some("")
    requires attribute(AttributeName("reverse")) == Some("")
    requires parse("") == None
    ensures var s := ExtendSettings(map[], attribute, parse);
            IsSettingTrue(s["glare"]) && !Truthy(s["reverse"])
  {
    var s := ExtendSettings(map[], attribute, parse);
    assert s["glare"] == JsStr("");
    assert s["reverse"] == JsStr("");
  }

  /** The default settings read as: no reversal, `max` 15, both start angles 0,
      glare off, reset and reset-to-start on, gyroscope on, listening on the
      element rather than the page. */
  lemma DefaultConfig()
    ensures var c := ToConfig(Defaults);
            && c.Some?
            && !c.value.reverse && c.value.max == 15.0
            && c.value.startX == 0.0 && c.value.startY == 0.0
            && !c.value.glare && c.value.reset && c.value.resetToStart
            && c.value.gyroscope && !c.value.fullPageListening
  {
    assert Defaults["max"] == JsNum(15.0);
    assert Defaults["startX"] == JsNum(0.0) && Defaults["startY"] == JsNum(0.0);
    assert Defaults["max-glare"].JsNum? && Defaults["gyroscopeSamples"].JsNum?;
    assert Defaults["gyroscopeMinAngleX"].JsNum? && Defaults["gyroscopeMaxAngleX"].JsNum?;
    assert Defaults["gyroscopeMinAngleY"].JsNum? && Defaults["gyroscopeMaxAngleY"].JsNum?;
    assert forall k :: k in NumericOptions ==> Defaults[k].JsNum?;
    assert Defaults["reverse"] == JsBool(false) && Defaults["glare"] == JsBool(false);
    assert Defaults["reset"] == JsBool(true) && Defaults["reset-to-start"] == JsBool(true);
    assert Defaults["gyroscope"] == JsBool(true) && Defaults["full-page-listening"] == JsBool(false);
  }

  /** The node that receives the pointer listeners. */
  datatype Surface = WholeDocument | Listener(node: nat)

  /** `getElementListener`: the document in full-page mode; else the node a
      selector string finds (`query` stands for `document.querySelector`); else a
      node given directly; else the tilted element itself. */
  function ListenerSurface(element: nat, fullPage: bool, mouseEventElement: JsValue,
                           query: string -> Option<nat>): (r: Surface)
    ensures fullPage ==> r == WholeDocument
    ensures !fullPage ==> r.Listener?
    ensures !fullPage && mouseEventElement.JsStr? && query(mouseEventElement.s).Some? ==>
              r == Listener(query(mouseEventElement.s).value)
    ensures !fullPage && mouseEventElement.JsNode? ==> r == Listener(mouseEventElement.node)
    ensures !fullPage && !mouseEventElement.JsNode?
            && !(mouseEventElement.JsStr? && query(mouseEventElement.s).Some?)
            ==> r == Listener(element)
  {
    if fullPage then WholeDocument
    else if mouseEventElement.JsStr? && query(mouseEventElement.s).Some? then
      Listener(query(mouseEventElement.s).value)
    else if mouseEventElement.JsNode? then Listener(mouseEventElement.node)
    else Listener(element)
  }
}
