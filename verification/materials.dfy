/**
 * A material: its texture channels, shading-model name and multi-layer
 * flag, how it is read from and written to a node, the property
 * connections its channels emit, and the builder's naming rules.
 */
module Materials {
  import opened Wrappers
  import opened Values
  import opened Tree
  import opened Scene

  /** A texture channel; the texture may be null until a builder checks it. */
  datatype Channel = Channel(name: string, texture: Option<Obj>)

  /** The `Channel` constructor: a null name becomes the empty string. */
  function NewChannel(name: Option<string>, texture: Option<Obj>): (r: Channel)
    ensures r.texture == texture
    ensures name.Some? ==> r.name == name.value
    ensures name.None? ==> r.name == ""
  {
    Channel(OrEmpty(name), texture)
  }

  datatype Material = Material(self: Obj, channels: seq<Channel>, shadingModel: string, multiLayer: bool)

  /** The `ShadingModel` setter: a null value is stored as the empty string. */
  function SetShadingModel(m: Material, value: Option<string>): (r: Material)
    ensures r.shadingModel == (if value.Some? then value.value else "")
    ensures r == m.(shadingModel := r.shadingModel)
  {
    m.(shadingModel := OrEmpty(value))
  }

  /** `InternalSetChannel`: the channel goes to the end of the list. */
  function SetChannel(m: Material, c: Channel): (r: Material)
    ensures |r.channels| == |m.channels| + 1 && r.channels[..|m.channels|] == m.channels
    ensures r.channels[|m.channels|] == c
    ensures r == m.(channels := r.channels)
  {
    m.(channels := m.channels + [c])
  }

  // ---------------------------------------------------------------------
  // Reading and writing
  // ---------------------------------------------------------------------

  /**
   * `Convert.ToBoolean` on an attribute value: numbers are true when non-zero,
   * the strings "True" and "False" parse, anything else throws.
   */
  function ToBoolean(a: Attr): (r: Result<bool>)
    ensures a.ABool? ==> r == Ok(a.b)
    ensures a.AByte? ==> r == Ok(a.u != 0)
    ensures a.AInt32? ==> r == Ok(a.i != 0)
    ensures a.AInt64? ==> r == Ok(a.l != 0)
    ensures a.ADouble? ==> r == Ok(a.d != 0.0)
    ensures a == AString("True") ==> r == Ok(true)
    ensures a == AString("False") ==> r == Ok(false)
    ensures a.AString? && a.s != "True" && a.s != "False" ==> r == Err(Conversion)
    ensures a.AInt32Array? || a.ADoubleArray? || a.AOpaque? ==> r == Err(Conversion)
  {
    match a
    case ABool(b) => Ok(b)
    case AByte(u) => Ok(u != 0)
    case AInt32(i) => Ok(i != 0)
    case AInt64(l) => Ok(l != 0)
    case ADouble(d) => Ok(d != 0.0)
    case AString(s) =>
      if s == "True" then Ok(true) else if s == "False" then Ok(false) else Err(Conversion)
    case _ => Err(Conversion)
  }

  /** The shading-model name a node carries: a string first attribute, else empty. */
  function ReadShadingModel(element: Node): (r: string)
    ensures (match FirstAttr(FindChild(element, "ShadingModel"))
             case Some(AString(s)) => r == s
             case _ => r == "")
  {
    match FirstAttr(FindChild(element, "ShadingModel"))
    case Some(AString(s)) => s
    case _ => ""
  }

  /**
   * The constructor: the shading model as above; the multi-layer flag read
   * with `ToBoolean` when present, false otherwise; no channels yet (they
   * arrive through connections).
   */
  function ReadMaterial(self: Obj, element: Node): (r: Result<Material>)
    ensures FirstAttr(FindChild(element, "MultiLayer")).None? ==>
              r == Ok(Material(self, [], ReadShadingModel(element), false))
    ensures FirstAttr(FindChild(element, "MultiLayer")).Some? ==>
              var flag := ToBoolean(FirstAttr(FindChild(element, "MultiLayer")).value);
              && (flag.Err? ==> r == Err(flag.error))
              && (flag.Ok? ==> r == Ok(Material(self, [], ReadShadingModel(element), flag.value)))
  {
    var shading := ReadShadingModel(element);
    match FirstAttr(FindChild(element, "MultiLayer"))
    case None => Ok(Material(self, [], shading, false))
    case Some(v) =>
      match ToBoolean(v)
      case Err(e) => Err(e)
      case Ok(b) => Ok(Material(self, [], shading, b))
  }

  /** `AsElement`: version 102, the shading model, the flag as 1 or 0, then the property block. */
  function AsElement(m: Material): (r: Node)
    ensures r.name == "Material" && |r.children| == 4
    ensures r.children[0] == Leaf("Version", AInt32(102))
    ensures r.children[1] == Leaf("ShadingModel", AString(m.shadingModel))
    ensures r.children[2] == Leaf("MultiLayer", AInt32(if m.multiLayer then 1 else 0))
    ensures r.children[3] == Node("Properties70", [AOpaque], [])
  {
    Node("Material", [AOpaque], [
      Leaf("Version", AInt32(102)),
      Leaf("ShadingModel", AString(m.shadingModel)),
      Leaf("MultiLayer", AInt32(if m.multiLayer then 1 else 0)),
      Node("Properties70", [AOpaque], [])])
  }

  /** A flag written as .NET's `bool.ToString()` text reads back through `ToBoolean`. */
  lemma BoolTextRoundTrip(b: bool)
    ensures ToBoolean(AString(if b then "True" else "False")) == Ok(b)
  {
  }

  /** Of all strings, only the two `bool.ToString()` texts convert; each names one value. */
  lemma BoolTextOnly(s: string)
    ensures ToBoolean(AString(s)).Ok? <==> s == "True" || s == "False"
    ensures ToBoolean(AString(s)) == Ok(true) <==> s == "True"
  {
  }

  /** The flag survives writing as an integer and reading with `ToBoolean`. */
  lemma MultiLayerRoundTrip(b: bool)
    ensures ToBoolean(AInt32(if b then 1 else 0)) == Ok(b)
  {
  }

  /**
   * Reading a written material gives back its shading model and flag; the
   * channels are not part of the node, so they come back empty.
   */
  lemma ReadAsElement(m: Material)
    ensures ReadMaterial(m.self, AsElement(m)) == Ok(m.(channels := []))
  {
    var n := AsElement(m);
    assert n.children[0].name != "ShadingModel";
    assert FirstNamed(n.children, "ShadingModel") == Some(1);
    assert n.children[0].name != "MultiLayer" && n.children[1].name != "MultiLayer";
    assert FirstNamed(n.children, "MultiLayer") == Some(2);
    MultiLayerRoundTrip(m.multiLayer);
  }

  /** A shading model set through the setter is what the written node reads back as. */
  lemma SetShadingModelRoundTrip(m: Material, value: Option<string>)
    ensures ReadMaterial(m.self, AsElement(SetShadingModel(m, value))).Ok?
    ensures ReadMaterial(m.self, AsElement(SetShadingModel(m, value))).value.shadingModel == OrEmpty(value)
  {
    ReadAsElement(SetShadingModel(m, value));
  }

  // ---------------------------------------------------------------------
  // Connections
  // ---------------------------------------------------------------------

  predicate AllTextured(cs: seq<Channel>) {
    forall i :: 0 <= i < |cs| ==> cs[i].texture.Some?
  }

  /** The connection a textured channel emits: texture to material, named by the channel. */
  function ChannelLink(self: Obj, c: Channel): Connection
    requires c.texture.Some?
  {
    Connection(PropertyLink, c.texture.value.id, self.id, Some(c.name))
  }

  /**
   * `GetConnections`: one property connection per channel, in channel
   * order. A channel with a null texture makes reading its id throw.
   */
  function GetConnections(m: Material): (r: Result<seq<Connection>>)
    ensures r.Err? <==> !AllTextured(m.channels)
    ensures r.Err? ==> r.error == NullReference
    ensures r.Ok? ==> |r.value| == |m.channels|
    ensures r.Ok? ==> forall i :: 0 <= i < |m.channels| ==>
              && r.value[i].kind == PropertyLink
              && r.value[i].target == m.self.id
              && r.value[i].source == m.channels[i].texture.value.id
              && r.value[i].property == Some(m.channels[i].name)
  {
    if !AllTextured(m.channels) then Err(NullReference)
    else Ok(seq(|m.channels|, i requires 0 <= i < |m.channels| => ChannelLink(m.self, m.channels[i])))
  }

  /** Re-creating a channel from its own name and texture gives the same channel: the null-name rule only normalises. */
  lemma NewChannelIdempotent(c: Channel)
    ensures NewChannel(Some(c.name), c.texture) == c
  {
  }

  /**
   * A textured channel added to a material whose channels are all textured
   * comes out as the last connection, from the texture to the material,
   * named by the channel name with a null name written as "".
   */
  lemma AddedChannelConnection(m: Material, name: Option<string>, t: Obj)
    requires AllTextured(m.channels)
    ensures GetConnections(SetChannel(m, NewChannel(name, Some(t)))).Ok?
    ensures var cs := GetConnections(SetChannel(m, NewChannel(name, Some(t)))).value;
            && cs[..|m.channels|] == GetConnections(m).value
            && cs[|m.channels|] == Connection(PropertyLink, t.id, m.self.id, Some(OrEmpty(name)))
  {
  }

  /** The (texture id, channel name) pairs a connection list describes. */
  function Described(cs: seq<Connection>): (r: seq<(ObjectId, string)>)
    ensures |r| == |cs|
  {
    if |cs| == 0 then []
    else Described(cs[..|cs| - 1]) + [(cs[|cs| - 1].source, cs[|cs| - 1].property.GetOr(""))]
  }

  /** The (texture id, channel name) pairs of a channel list. */
  function ChannelPairs(cs: seq<Channel>): (r: seq<(ObjectId, string)>)
    requires AllTextured(cs)
    ensures |r| == |cs|
  {
    if |cs| == 0 then []
    else ChannelPairs(cs[..|cs| - 1]) + [(cs[|cs| - 1].texture.value.id, cs[|cs| - 1].name)]
  }

  /** The connections carry every channel's texture and name, in order: the channel list can be read back from them. */
  lemma ConnectionsDescribeChannels(m: Material)
    requires AllTextured(m.channels)
    ensures GetConnections(m).Ok?
    ensures Described(GetConnections(m).value) == ChannelPairs(m.channels)
  {
    DescribedPrefix(m, |m.channels|);
    assert GetConnections(m).value[..|m.channels|] == GetConnections(m).value;
    assert m.channels[..|m.channels|] == m.channels;
  }

  lemma {:induction false} DescribedPrefix(m: Material, k: nat)
    requires AllTextured(m.channels) && k <= |m.channels|
    ensures GetConnections(m).Ok?
    ensures Described(GetConnections(m).value[..k]) == ChannelPairs(m.channels[..k])
  {
    if k > 0 {
      DescribedPrefix(m, k - 1);
      var cs := GetConnections(m).value;
      assert cs[..k][..k - 1] == cs[..k - 1];
      assert m.channels[..k][..k - 1] == m.channels[..k - 1];
    }
  }

  /** A channel set on a material adds exactly its connection at the end. */
  lemma SetChannelConnection(m: Material, c: Channel)
    requires AllTextured(m.channels) && c.texture.Some?
    ensures GetConnections(m).Ok? && GetConnections(SetChannel(m, c)).Ok?
    ensures GetConnections(SetChannel(m, c)).value == GetConnections(m).value + [ChannelLink(m.self, c)]
  {
    var r := SetChannel(m, c);
    assert AllTextured(r.channels) by {
      forall i | 0 <= i < |r.channels| ensures r.channels[i].texture.Some? {
        if i < |m.channels| {
          assert r.channels[i] == r.channels[..|m.channels|][i];
        }
      }
    }
  }

  // ---------------------------------------------------------------------
  // Builder
  // ---------------------------------------------------------------------

  /** `MaterialBuilder.ChannelType`. */
  datatype ChannelType = DiffuseColor | NormalMap | HeightMap | ReflectionColor
                       | AmbientColor | EmissiveColor | SpecularColor | TransparentColor

  /** The enum identifier, which the enum overload of `WithChannel` uses as the name. */
  function ChannelTypeName(t: ChannelType): string {
    match t
    case DiffuseColor => "DiffuseColor"
    case NormalMap => "NormalMap"
    case HeightMap => "HeightMap"
    case ReflectionColor => "ReflectionColor"
    case AmbientColor => "AmbientColor"
    case EmissiveColor => "EmissiveColor"
    case SpecularColor => "SpecularColor"
    case TransparentColor => "TransparentColor"
  }

  /** Different channel types give different channel names. */
  lemma ChannelTypeNamesDistinct(s: ChannelType, t: ChannelType)
    ensures ChannelTypeName(s) == ChannelTypeName(t) <==> s == t
  {
    if s != t {
      ChannelTypeNameDiffers(s, t);
    }
  }

  lemma ChannelTypeNameDiffers(s: ChannelType, t: ChannelType)
    requires s != t
    ensures ChannelTypeName(s) != ChannelTypeName(t)
  {
    var a, b := ChannelTypeName(s), ChannelTypeName(t);
    if |a| == |b| {
      // names of equal length differ in their first letter
      assert a[0] != b[0];
    }
  }

  /** The builder's state that the modelled operations touch: the channels added so far. */
  datatype MaterialBuilder = MaterialBuilder(scene: SceneId, channels: seq<Channel>)

  /** `WithChannel(Channel)`: a null texture throws; otherwise the channel is appended, duplicates included. */
  function WithChannel(b: MaterialBuilder, c: Channel): (r: Result<MaterialBuilder>)
    ensures r.Err? <==> c.texture.None?
    ensures r.Err? ==> r.error == ArgumentNull
    ensures r.Ok? ==> r.value.scene == b.scene && r.value.channels == b.channels + [c]
  {
    if c.texture.None? then Err(ArgumentNull)
    else Ok(b.(channels := b.channels + [c]))
  }

  /** `WithChannel(string, Texture)`: the name goes through the channel constructor. */
  function WithChannelNamed(b: MaterialBuilder, name: Option<string>, texture: Option<Obj>): (r: Result<MaterialBuilder>)
    ensures r.Err? <==> texture.None?
    ensures r.Ok? ==> r.value.channels == b.channels + [Channel(OrEmpty(name), texture)]
  {
    WithChannel(b, NewChannel(name, texture))
  }

  /** `WithChannel(ChannelType, Texture)`: the channel is named by the enum identifier. */
  function WithChannelOf(b: MaterialBuilder, t: ChannelType, texture: Option<Obj>): (r: Result<MaterialBuilder>)
    ensures r.Err? <==> texture.None?
    ensures r.Ok? ==> r.value.channels == b.channels + [Channel(ChannelTypeName(t), texture)]
  {
    WithChannelNamed(b, Some(ChannelTypeName(t)), texture)
  }

  /** A builder that accepted only textured channels holds only textured channels. */
  lemma WithChannelKeepsTextured(b: MaterialBuilder, c: Channel)
    requires AllTextured(b.channels)
    ensures WithChannel(b, c).Ok? ==> AllTextured(WithChannel(b, c).value.channels)
  {
    if c.texture.Some? {
      var cs := b.channels + [c];
      forall i | 0 <= i < |cs| ensures cs[i].texture.Some? {
        if i < |b.channels| {
          assert cs[i] == b.channels[i];
        }
      }
    }
  }

  /** Property flags the builder sets. */
  datatype PropertyFlag = Imported | Animatable

  /** A typed property record: the two type strings, the name, the flags and the value. */
  datatype Property<T> = Property(type1: string, type2: string, name: string, flags: set<PropertyFlag>, value: T)

  predicate StartsWithBump(name: string) {
    |name| >= 4 && name[..4] == "Bump"
  }

  /**
   * `WithFactor(string, double)`: the property it sets. Names starting with
   * "Bump" are typed ("double", "Number"), all others ("Number", ""); the
   * flags are always imported and animatable. A null name throws.
   */
  function FactorProperty(name: Option<string>, factor: real): (r: Result<Property<real>>)
    ensures r.Err? <==> name.None?
    ensures r.Err? ==> r.error == NullReference
    ensures r.Ok? ==> r.value.name == name.value && r.value.value == factor
    ensures r.Ok? ==> r.value.flags == {Imported, Animatable}
    ensures r.Ok? && StartsWithBump(name.value) ==> r.value.type1 == "double" && r.value.type2 == "Number"
    ensures r.Ok? && !StartsWithBump(name.value) ==> r.value.type1 == "Number" && r.value.type2 == ""
  {
    if name.None? then Err(NullReference)
    else
      var second := if StartsWithBump(name.value) then "Number" else "";
      var first := if second == "" then "Number" else "double";
      Ok(Property(first, second, name.value, {Imported, Animatable}, factor))
  }

  /** `WithColor(string, ColorRGB)`: type "Color", no second type, imported and animatable. */
  function ColorProperty(name: string, color: ColorRGB): (r: Property<ColorRGB>)
    ensures r.type1 == "Color" && r.type2 == "" && r.name == name
    ensures r.flags == {Imported, Animatable} && r.value == color
  {
    Property("Color", "", name, {Imported, Animatable}, color)
  }

  /** `MaterialBuilder.FactorType`. */
  datatype FactorType = DiffuseFactor | SpecularFactor | ReflectionFactor | Shininess | ShininessExponent
                      | AmbientFactor | BumpFactor | EmissiveFactor | TransparencyFactor

  function FactorTypeName(t: FactorType): string {
    match t
    case DiffuseFactor => "DiffuseFactor"
    case SpecularFactor => "SpecularFactor"
    case ReflectionFactor => "ReflectionFactor"
    case Shininess => "Shininess"
    case ShininessExponent => "ShininessExponent"
    case AmbientFactor => "AmbientFactor"
    case BumpFactor => "BumpFactor"
    case EmissiveFactor => "EmissiveFactor"
    case TransparencyFactor => "TransparencyFactor"
  }

  /** The type strings the material's own factor setters use, property by property. */
  function SetterTypes(t: FactorType): (string, string) {
    match t
    case BumpFactor => ("double", "Number")
    case _ => ("Number", "")
  }

  /**
   * The builder's name rule and the material's setters agree: every factor
   * the enum overload of `WithFactor` sets gets the type strings the
   * material's setter of that property uses, and only `BumpFactor` is
   * typed "double".
   */
  lemma FactorTypesAgree(t: FactorType, factor: real)
    ensures FactorProperty(Some(FactorTypeName(t)), factor).Ok?
    ensures var p := FactorProperty(Some(FactorTypeName(t)), factor).value;
            (p.type1, p.type2) == SetterTypes(t) && (p.type1 == "double" <==> t == BumpFactor)
  {
    var name := FactorTypeName(t);
    if t == BumpFactor {
      assert name[..4] == "Bump";
    } else {
      assert |name| < 4 || name[..4] != "Bump" by {
        if |name| >= 4 {
          assert name[0] != 'B';
        }
      }
    }
  }
}
