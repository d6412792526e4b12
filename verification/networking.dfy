/** The networking-device handler (`NetworkingTypeHandler`): classification of a
    device by its description (`discover`) and registration in the inventory with
    a second-generation driver first and a first-generation driver as fallback
    (`upload`). The vendor catalog, the credential probe and the registrar are
    oracles passed in as functions; lookups and registrar calls are recorded so
    that their number and order can be stated. */
module Networking {
  import opened Common
  import opened CredentialCursor

  /** One driver generation of a model family. */
  datatype Generation = Generation(driverName: string, familyName: string, modelName: string)

  /** The catalog record of a model type: either block may be absent. */
  datatype FamilyData = FamilyData(secondGen: Option<Generation>, firstGen: Option<Generation>)

  /** A device OS definition: the family record per model type, and the lookup of
      a model type from a system description. */
  datatype DeviceOs = DeviceOs(families: map<string, FamilyData>, modelType: string -> Option<string>)

  /** A networking vendor definition: the lookup of a device OS from a system
      description. */
  datatype Vendor = Vendor(deviceOs: string -> Option<DeviceOs>)

  /** A row of the discovery report. */
  datatype Entry = Entry(ip: string, description: string, modelType: Option<string>,
                         user: Option<string>, password: Option<string>, enablePassword: Option<string>,
                         snmpCommunity: Option<string>, folderPath: Option<string>, comment: string)

  /** A question put to a collaborator during `discover`. */
  datatype Lookup =
    | DeviceOsLookup(description: string)
    | ModelTypeLookup(description: string)
    | CredentialsLookup(ip: string)
    | FolderLookup

  datatype DiscoverResult = DiscoverResult(outcome: Result<Entry>, lookups: seq<Lookup>)

  const NoDeviceOsMessage: string := "Unable to determine device OS"
  const NoModelTypeMessage: string := "Unable to determine device model type"
  const NoCredentialsComment: string := "Unable to discover device user/password/enable password"

  /** `discover`: find the device OS, then the model type, failing with a distinct
      message at each step; then copy the probed CLI credentials (or note that
      none were found) and set the folder path from the vendor settings.
      `cliCredentials` answers the credential probe for a device address;
      `folderPath` is what the vendor settings give as this vendor's folder, which
      may be unset. */
  function Discover(entry: Entry, vendor: Vendor, cliCredentials: string -> Option<Credentials>,
                    folderPath: Option<string>): (r: DiscoverResult)
    ensures vendor.deviceOs(entry.description).None? ==>
              r.outcome == Err("Unable to determine device OS") && r.lookups == [DeviceOsLookup(entry.description)]
    ensures vendor.deviceOs(entry.description).Some? &&
            vendor.deviceOs(entry.description).value.modelType(entry.description).None? ==>
              && r.outcome == Err("Unable to determine device model type")
              && r.lookups == [DeviceOsLookup(entry.description), ModelTypeLookup(entry.description)]
    ensures r.outcome.Ok? <==>
              vendor.deviceOs(entry.description).Some? &&
              vendor.deviceOs(entry.description).value.modelType(entry.description).Some?
    ensures r.outcome.Ok? ==>
              && r.lookups == [DeviceOsLookup(entry.description), ModelTypeLookup(entry.description),
                               CredentialsLookup(entry.ip), FolderLookup]
              && r.outcome.value.modelType == vendor.deviceOs(entry.description).value.modelType(entry.description)
              && r.outcome.value.folderPath == folderPath
              && r.outcome.value.ip == entry.ip
              && r.outcome.value.description == entry.description
              && r.outcome.value.snmpCommunity == entry.snmpCommunity
    ensures r.outcome.Ok? && cliCredentials(entry.ip).None? ==>
              && r.outcome.value.comment == "Unable to discover device user/password/enable password"
              && r.outcome.value.user == entry.user
              && r.outcome.value.password == entry.password
              && r.outcome.value.enablePassword == entry.enablePassword
    ensures r.outcome.Ok? && cliCredentials(entry.ip).Some? ==>
              && r.outcome.value.comment == entry.comment
              && r.outcome.value.user == cliCredentials(entry.ip).value.user
              && r.outcome.value.password == cliCredentials(entry.ip).value.password
              && r.outcome.value.enablePassword == cliCredentials(entry.ip).value.enablePassword
  {
    var description := entry.description;
    match vendor.deviceOs(description)
    case None => DiscoverResult(Err(NoDeviceOsMessage), [DeviceOsLookup(description)])
    case Some(os) =>
      match os.modelType(description)
      case None => DiscoverResult(Err(NoModelTypeMessage), [DeviceOsLookup(description), ModelTypeLookup(description)])
      case Some(modelType) =>
        var classified := entry.(modelType := Some(modelType));
        var credentialed :=
          match cliCredentials(entry.ip)
          case None => classified.(comment := NoCredentialsComment)
          case Some(creds) =>
            classified.(user := creds.user, password := creds.password, enablePassword := creds.enablePassword);
        DiscoverResult(Ok(credentialed.(folderPath := folderPath)),
                       [DeviceOsLookup(description), ModelTypeLookup(description), CredentialsLookup(entry.ip), FolderLookup])
  }

  /** Discovering an entry that was already discovered, with the same
      collaborators, changes nothing. */
  lemma DiscoverIsIdempotent(entry: Entry, vendor: Vendor, cliCredentials: string -> Option<Credentials>, folderPath: Option<string>)
    requires Discover(entry, vendor, cliCredentials, folderPath).outcome.Ok?
    ensures var once := Discover(entry, vendor, cliCredentials, folderPath).outcome.value;
            Discover(once, vendor, cliCredentials, folderPath).outcome == Ok(once)
  {
  }

  /** The attributes sent with every registration (the SNMP flag is always off). */
  datatype Attributes = Attributes(enableSnmp: string, snmpReadCommunity: Option<string>, user: Option<string>,
                                   password: Option<string>, enablePassword: Option<string>)

  function EntryAttributes(entry: Entry): Attributes
  {
    Attributes("False", entry.snmpCommunity, entry.user, entry.password, entry.enablePassword)
  }

  /** One registrar call; `prefix` is the attribute-name prefix, if any. */
  datatype RegisterCall = RegisterCall(familyName: string, modelName: string, driverName: string,
                                       attributes: Attributes, prefix: Option<string>)

  /** The inventory registrar: the created resource name, or an unset/empty name
      when the driver is not installed. */
  type Registrar = RegisterCall -> Option<string>

  datatype UploadResult = UploadResult(outcome: Result<Entry>, calls: seq<RegisterCall>)

  predicate HasBlock(family: FamilyData)
  {
    family.secondGen.Some? || family.firstGen.Some?
  }

  /** What `upload` needs from the catalog: when the device OS is found, the
      entry's model type has a family record with at least one block. */
  predicate Uploadable(entry: Entry, vendor: Vendor)
  {
    vendor.deviceOs(entry.description).Some? ==>
      && entry.modelType.Some?
      && entry.modelType.value in vendor.deviceOs(entry.description).value.families
      && HasBlock(vendor.deviceOs(entry.description).value.families[entry.modelType.value])
  }

  function FamilyOf(entry: Entry, vendor: Vendor): FamilyData
    requires Uploadable(entry, vendor) && vendor.deviceOs(entry.description).Some?
  {
    vendor.deviceOs(entry.description).value.families[entry.modelType.value]
  }

  function SecondGenCall(g: Generation, attributes: Attributes): RegisterCall
  {
    RegisterCall(g.familyName, g.modelName, g.driverName, attributes, Some(g.modelName + "."))
  }

  function FirstGenCall(g: Generation, attributes: Attributes): RegisterCall
  {
    RegisterCall(g.familyName, g.modelName, g.driverName, attributes, None)
  }

  function NotInstalledComment(driverName: string): string
  {
    "Shell " + driverName + " is not installed"
  }

  /** `upload`: register with the second-generation driver when the family has
      one (attributes prefixed with its model name), fall back to the
      first-generation driver (unprefixed) when that yields no resource name, and
      record a "not installed" comment when the final name is unset or empty. The
      comment names the second-generation driver whenever that block exists. */
  function Upload(entry: Entry, vendor: Vendor, register: Registrar): (r: UploadResult)
    requires Uploadable(entry, vendor)
    ensures vendor.deviceOs(entry.description).None? ==>
              r == UploadResult(Err("Unable to determine device OS"), [])
    ensures vendor.deviceOs(entry.description).Some? ==> r.outcome.Ok? && 1 <= |r.calls| <= 2
    ensures vendor.deviceOs(entry.description).Some? && FamilyOf(entry, vendor).secondGen.Some? ==>
              var g := FamilyOf(entry, vendor).secondGen.value;
              r.calls[0] == RegisterCall(g.familyName, g.modelName, g.driverName, EntryAttributes(entry),
                                         Some(g.modelName + "."))
    ensures vendor.deviceOs(entry.description).Some? ==>
              (|r.calls| == 2 <==>
                 FamilyOf(entry, vendor).secondGen.Some? && FamilyOf(entry, vendor).firstGen.Some? &&
                 !Truthy(register(r.calls[0])))
    ensures |r.calls| == 2 ==>
              var g := FamilyOf(entry, vendor).firstGen.value;
              r.calls[1] == RegisterCall(g.familyName, g.modelName, g.driverName, EntryAttributes(entry), None)
    ensures vendor.deviceOs(entry.description).Some? && FamilyOf(entry, vendor).secondGen.None? ==>
              var g := FamilyOf(entry, vendor).firstGen.value;
              r.calls == [RegisterCall(g.familyName, g.modelName, g.driverName, EntryAttributes(entry), None)]
    ensures r.outcome.Ok? && Truthy(register(r.calls[|r.calls| - 1])) ==> r.outcome.value == entry
    ensures r.outcome.Ok? && !Truthy(register(r.calls[|r.calls| - 1])) ==>
              var family := FamilyOf(entry, vendor);
              var driver := if family.secondGen.Some? then family.secondGen.value.driverName
                            else family.firstGen.value.driverName;
              r.outcome.value == entry.(comment := "Shell " + driver + " is not installed")
  {
    match vendor.deviceOs(entry.description)
    case None => UploadResult(Err(NoDeviceOsMessage), [])
    case Some(os) =>
      var family := os.families[entry.modelType.value];
      var attributes := EntryAttributes(entry);
      var (calls, resourceName, driverName) :=
        if family.secondGen.Some? then
          var second := SecondGenCall(family.secondGen.value, attributes);
          var secondName := register(second);
          if !Truthy(secondName) && family.firstGen.Some? then
            var first := FirstGenCall(family.firstGen.value, attributes);
            ([second, first], register(first), family.secondGen.value.driverName)
          else
            ([second], secondName, family.secondGen.value.driverName)
        else
          var first := FirstGenCall(family.firstGen.value, attributes);
          ([first], register(first), family.firstGen.value.driverName);
      var commented := if !Truthy(resourceName) then entry.(comment := NotInstalledComment(driverName)) else entry;
      UploadResult(Ok(commented), calls)
  }

  /** Reference definition of a driver fallback chain: the registration attempts
      in order of preference, second generation (prefixed) before first
      generation (unprefixed). */
  function Tiers(family: FamilyData, attributes: Attributes): seq<RegisterCall>
  {
    (if family.secondGen.Some? then [SecondGenCall(family.secondGen.value, attributes)] else []) +
    (if family.firstGen.Some? then [FirstGenCall(family.firstGen.value, attributes)] else [])
  }

  datatype Attempts = Attempts(calls: seq<RegisterCall>, resourceName: Option<string>)

  /** Try `tiers` in order until one yields a resource name; the result is the
      calls made and the name the last call returned. */
  function Fallback(tiers: seq<RegisterCall>, register: Registrar): (a: Attempts)
    requires |tiers| > 0
    ensures 1 <= |a.calls| <= |tiers| && a.calls == tiers[..|a.calls|]
    ensures a.resourceName == register(a.calls[|a.calls| - 1])
    ensures forall i :: 0 <= i < |a.calls| - 1 ==> !Truthy(register(a.calls[i]))
    ensures |a.calls| < |tiers| ==> Truthy(a.resourceName)
    decreases |tiers|
  {
    var name := register(tiers[0]);
    if Truthy(name) || |tiers| == 1 then Attempts([tiers[0]], name)
    else
      var rest := Fallback(tiers[1..], register);
      Attempts([tiers[0]] + rest.calls, rest.resourceName)
  }

  /** `upload` is the fallback chain over the family's tiers: it makes exactly the
      chain's calls, in the same order, and records the "not installed" comment
      exactly when the chain ends without a resource name. */
  lemma UploadIsFallbackChain(entry: Entry, vendor: Vendor, register: Registrar)
    requires Uploadable(entry, vendor) && vendor.deviceOs(entry.description).Some?
    ensures var chain := Fallback(Tiers(FamilyOf(entry, vendor), EntryAttributes(entry)), register);
            var r := Upload(entry, vendor, register);
            var family := FamilyOf(entry, vendor);
            var driver := if family.secondGen.Some? then family.secondGen.value.driverName
                          else family.firstGen.value.driverName;
            && r.calls == chain.calls
            && (Truthy(chain.resourceName) ==> r.outcome.value == entry)
            && (!Truthy(chain.resourceName) ==> r.outcome.value == entry.(comment := "Shell " + driver + " is not installed"))
  {
    var family := FamilyOf(entry, vendor);
    var tiers := Tiers(family, EntryAttributes(entry));
    var chain := Fallback(tiers, register);
    if family.secondGen.Some? && family.firstGen.Some? && !Truthy(register(tiers[0])) {
      assert chain.calls == [tiers[0]] + Fallback(tiers[1..], register).calls;
    }
  }

  /** As written, the "not installed" comment names the second-generation driver
      even when the first-generation driver was the last one tried. */
  lemma CommentNamesSecondGenDriver(entry: Entry, vendor: Vendor, register: Registrar)
    requires Uploadable(entry, vendor) && vendor.deviceOs(entry.description).Some?
    requires FamilyOf(entry, vendor).secondGen.Some? && FamilyOf(entry, vendor).firstGen.Some?
    requires !Truthy(register(SecondGenCall(FamilyOf(entry, vendor).secondGen.value, EntryAttributes(entry))))
    requires !Truthy(register(FirstGenCall(FamilyOf(entry, vendor).firstGen.value, EntryAttributes(entry))))
    ensures var r := Upload(entry, vendor, register);
            && |r.calls| == 2
            && r.calls[1].driverName == FamilyOf(entry, vendor).firstGen.value.driverName
            && r.outcome.value.comment == "Shell " + FamilyOf(entry, vendor).secondGen.value.driverName + " is not installed"
  {
  }

  /** Every registration of a discovered entry carries exactly the credentials the
      probe found, with the SNMP flag off. */
  lemma UploadSendsDiscoveredCredentials(entry: Entry, vendor: Vendor, cliCredentials: string -> Option<Credentials>,
                                         folderPath: Option<string>, register: Registrar)
    requires Discover(entry, vendor, cliCredentials, folderPath).outcome.Ok?
    requires cliCredentials(entry.ip).Some?
    requires Uploadable(Discover(entry, vendor, cliCredentials, folderPath).outcome.value, vendor)
    ensures var found := cliCredentials(entry.ip).value;
            var calls := Upload(Discover(entry, vendor, cliCredentials, folderPath).outcome.value, vendor, register).calls;
            forall i :: 0 <= i < |calls| ==>
              && calls[i].attributes.user == found.user
              && calls[i].attributes.password == found.password
              && calls[i].attributes.enablePassword == found.enablePassword
              && calls[i].attributes.enableSnmp == "False"
  {
  }
}
