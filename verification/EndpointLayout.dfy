/** The advertisement octet by octet, and exactly what may be advertised. */
module EndpointLayout {
  import opened Base
  import Blocks
  import opened EndpointInfo

  /** The first octet holds the version, whether there is no name, and the device type. */
  lemma FirstOctetIs(version: Byte, nameless: bool, deviceType: Byte)
    requires version <= 1 && deviceType <= 6
    ensures FirstByte(version, nameless, deviceType) == 32 * version + (if nameless then 16 else 0) + 2 * deviceType
  {
  }

  lemma NameIs(name: Option<Bytes>)
    requires name.Some? ==> |name.value| < 256
    ensures NameBytes(name) == if name.Some? then [|name.value| as Byte] + name.value else []
  {
    assert name.Some? ==> |name.value| % 256 == |name.value|;
  }

  lemma CapabilitiesAre(capabilities: Bytes)
    requires |capabilities| < 256
    ensures CapabilityBytes(capabilities) ==
            if capabilities != [] then [3, |capabilities| as Byte] + capabilities else []
  {
    assert |capabilities| % 256 == |capabilities|;
  }

  lemma HeaderIs(info: Info)
    requires info.version <= 1 && info.deviceType <= 6
    ensures Header(info) ==
            [32 * info.version + (if info.name.None? then 16 else 0) + 2 * info.deviceType] + info.salt + info.metadataKey
  {
    FirstOctetIs(info.version, info.name.None?, info.deviceType);
  }

  /** One octet of flags, two of salt, fourteen of key, the name after its length, the
      vendor in an extension of type two and the capabilities in one of type three. */
  lemma AdvertisementIs(info: Info)
    requires Shaped(info) && New(info).Ok?
    ensures Encoded(info) ==
            [32 * info.version + (if info.name.None? then 16 else 0) + 2 * info.deviceType]
            + info.salt + info.metadataKey
            + (if info.name.Some? then [|info.name.value| as Byte] + info.name.value else [])
            + ((if info.vendor.Some? then [2, 1, info.vendor.value] else [])
               + (if info.capabilities != [] then [3, |info.capabilities| as Byte] + info.capabilities else []))
    ensures |info.salt| == 2 && |info.metadataKey| == 14
  {
    HeaderIs(info);
    NameIs(info.name);
    CapabilitiesAre(info.capabilities);
    ExtensionsAre(info);
  }

  /** Advertised are versions zero and one, seven device types, one vendor at most, and
      a name and capabilities of at most 255 octets, unchanged. */
  lemma AdvertisedExactly(info: Info)
    ensures New(info).Ok? <==>
            && info.version < 2 && info.deviceType < 7 && (info.vendor == None || info.vendor == Some(1))
            && (info.name.Some? ==> |info.name.value| < 256) && |info.capabilities| < 256
    ensures New(info).Ok? ==> New(info).value == info
  {
  }
}
