/**
  The GDM responder's reply (class `GDMAdvertiser` and `appendNameValue` in
  gdm.py): the descriptor datagram sent back to every probe, and the fact that
  the scanner's parser recovers the advertised identity from it.
*/
module Advertiser {
  import opened Wrappers
  import opened Text
  import opened Discovery

  /** `WIN_NL`: the line terminator of the descriptor. */
  const WinNl := "\r\n"

  /**
    Text that reaches the scanner's dictionary intact: no colon (which would
    split the line again) and no line break (which would split the datagram).
  */
  predicate Advertisable(s: string) {
    forall i :: 0 <= i < |s| ==> s[i] != ':' && !IsLineBreak(s[i])
  }

  /** A fixed piece of the descriptor; each constant below is checked against it once. */
  type Token = s: string | Advertisable(s) witness ""

  const StatusLine: Token := "HTTP/1.0 200 OK"

  // The header names, in the order the descriptor lists them.
  const NameHeader: Token := "Name"
  const PortHeader: Token := "Port"
  const ProductHeader: Token := "Product"
  const ContentTypeHeader: Token := ContentType
  const ProtocolHeader: Token := "Protocol"
  const ProtocolVersionHeader: Token := "Protocol-Version"
  const CapabilitiesHeader: Token := "Protocol-Capabilities"
  const VersionHeader: Token := "Version"
  const IdentifierHeader: Token := ResourceIdentifier
  const DeviceClassHeader: Token := "Device-Class"

  // The two values that do not come from the configuration.
  const PortValue: Token := "32400"
  const MediaPlayer: Token := "plex/media-player"

  /** The identity a device advertises: the module-level constants of gdm.py. */
  datatype Identity = Identity(
    applicationName: string,
    machineIdentifier: string,
    product: string,
    version: string,
    platform: string,
    platformVersion: string,
    protocol: string,
    protocolVersion: string,
    protocolCapabilities: string,
    deviceClass: string)

  // The values gdm.py assigns to those constants.
  const ApplicationName: Token := "Python Test"
  const MachineIdentifier: Token := "test123"
  const PlexProduct: Token := "Plex for Kodi"
  const PlexVersion: Token := "0.0.1"
  const Platform: Token := "raspberry"
  const PlatformVersion: Token := "19.11111"
  const PlexProtocol: Token := "plex"
  const PlexProtocolVersion: Token := "3"
  const PlexProtocolCapabilities: Token := "timeline,playback," + "navigation," + "mirror,playqueues"
  const DeviceClass: Token := "stb"

  const SourceIdentity := Identity(
    ApplicationName, MachineIdentifier, PlexProduct, PlexVersion, Platform, PlatformVersion,
    PlexProtocol, PlexProtocolVersion, PlexProtocolCapabilities, DeviceClass)

  /** One `Name: value` line of the descriptor. */
  function HeaderLine(name: string, value: string): string {
    name + ": " + value
  }

  /**
    `appendNameValue(buf, name, value)`: `buf` is kept as an unchanged prefix,
    and the buffer grows by the name, the value and four separator characters.
  */
  function AppendNameValue(buf: string, name: string, value: string): (r: string)
    ensures |r| == |buf| + |name| + |value| + 4
    ensures buf <= r
  {
    buf + HeaderLine(name, value) + WinNl
  }

  /** What follows the kept buffer is the line `name: value` and its CRLF terminator. */
  lemma {:induction false} AppendNameValueExtends(buf: string, name: string, value: string)
    ensures AppendNameValue(buf, name, value)[|buf|..] == HeaderLine(name, value) + WinNl
  {
  }

  /** Appending to CRLF-terminated lines adds one more CRLF-terminated line. */
  lemma {:induction false} AppendNameValueAddsLine(lines: seq<string>, name: string, value: string)
    ensures AppendNameValue(CrlfTerminated(lines), name, value) == CrlfTerminated(lines + [HeaderLine(name, value)])
  {
    CrlfTerminatedSnoc(lines, HeaderLine(name, value));
  }

  /** `getResponseString()`: the status line, then the ten fields in their fixed order. */
  function ResponseString(id: Identity): (r: string)
    ensures StatusLine + WinNl <= r
  {
    var response := StatusLine + WinNl;
    var response := AppendNameValue(response, NameHeader, id.applicationName);
    var response := AppendNameValue(response, PortHeader, PortValue);
    var response := AppendNameValue(response, ProductHeader, id.product);
    var response := AppendNameValue(response, ContentTypeHeader, MediaPlayer);
    var response := AppendNameValue(response, ProtocolHeader, id.protocol);
    var response := AppendNameValue(response, ProtocolVersionHeader, id.protocolVersion);
    var response := AppendNameValue(response, CapabilitiesHeader, id.protocolCapabilities);
    var response := AppendNameValue(response, VersionHeader, id.version);
    var response := AppendNameValue(response, IdentifierHeader, id.machineIdentifier);
    var response := AppendNameValue(response, DeviceClassHeader, id.deviceClass);
    response
  }

  /** The ten advertised fields, in the order the descriptor lists them. */
  function AdvertisedFields(id: Identity): seq<Field> {
    [ Field(NameHeader, id.applicationName),
      Field(PortHeader, PortValue),
      Field(ProductHeader, id.product),
      Field(ContentTypeHeader, MediaPlayer),
      Field(ProtocolHeader, id.protocol),
      Field(ProtocolVersionHeader, id.protocolVersion),
      Field(CapabilitiesHeader, id.protocolCapabilities),
      Field(VersionHeader, id.version),
      Field(IdentifierHeader, id.machineIdentifier),
      Field(DeviceClassHeader, id.deviceClass) ]
  }

  /** The `Name: value` lines of `fields`, in order. */
  function HeaderLines(fields: seq<Field>): (lines: seq<string>)
    ensures |lines| == |fields|
  {
    seq(|fields|, i requires 0 <= i < |fields| => HeaderLine(fields[i].name, fields[i].value))
  }

  /** The lines of the descriptor, without their terminators. */
  function ResponseLines(id: Identity): seq<string> {
    [StatusLine] + HeaderLines(AdvertisedFields(id))
  }

  /**
    The descriptor is the status line followed by exactly one CRLF-terminated
    `Name: value` line per advertised field, in the fixed order.
  */
  lemma {:induction false} ResponseLayout(id: Identity)
    ensures ResponseString(id) == CrlfTerminated(ResponseLines(id))
  {
    var fs := AdvertisedFields(id);
    var lines := [StatusLine];
    assert StatusLine + WinNl == CrlfTerminated(lines);
    // Each of the ten appends adds the line of the next field.
    for k := 0 to 10
      invariant lines == [StatusLine] + HeaderLines(fs[..k])
      invariant CrlfTerminated(lines) == ResponseAfter(id, k)
    {
      AppendNameValueAddsLine(lines, fs[k].name, fs[k].value);
      assert HeaderLines(fs[..k + 1]) == HeaderLines(fs[..k]) + [HeaderLine(fs[k].name, fs[k].value)];
      lines := lines + [HeaderLine(fs[k].name, fs[k].value)];
    }
    assert fs[..10] == fs;
    ResponseAfterAll(id);
  }

  /** The descriptor once the first `k` fields have been appended. */
  function ResponseAfter(id: Identity, k: nat): string
    requires k <= 10
  {
    if k == 0 then StatusLine + WinNl
    else
      var f := AdvertisedFields(id)[k - 1];
      AppendNameValue(ResponseAfter(id, k - 1), f.name, f.value)
  }

  lemma {:induction false} ResponseAfterAll(id: Identity)
    ensures ResponseAfter(id, 10) == ResponseString(id)
  {
    ResponseAfterFive(id);
    assert ResponseAfter(id, 6) == AppendNameValue(ResponseAfter(id, 5), ProtocolVersionHeader, id.protocolVersion);
    assert ResponseAfter(id, 7) == AppendNameValue(ResponseAfter(id, 6), CapabilitiesHeader, id.protocolCapabilities);
    assert ResponseAfter(id, 8) == AppendNameValue(ResponseAfter(id, 7), VersionHeader, id.version);
    assert ResponseAfter(id, 9) == AppendNameValue(ResponseAfter(id, 8), IdentifierHeader, id.machineIdentifier);
  }

  /** The first five appends of `getResponseString()`. */
  lemma {:induction false} ResponseAfterFive(id: Identity)
    ensures ResponseAfter(id, 5) ==
      var response := StatusLine + WinNl;
      var response := AppendNameValue(response, NameHeader, id.applicationName);
      var response := AppendNameValue(response, PortHeader, PortValue);
      var response := AppendNameValue(response, ProductHeader, id.product);
      var response := AppendNameValue(response, ContentTypeHeader, MediaPlayer);
      AppendNameValue(response, ProtocolHeader, id.protocol)
  {
    assert ResponseAfter(id, 1) == AppendNameValue(StatusLine + WinNl, NameHeader, id.applicationName);
    assert ResponseAfter(id, 2) == AppendNameValue(ResponseAfter(id, 1), PortHeader, PortValue);
    assert ResponseAfter(id, 3) == AppendNameValue(ResponseAfter(id, 2), ProductHeader, id.product);
    assert ResponseAfter(id, 4) == AppendNameValue(ResponseAfter(id, 3), ContentTypeHeader, MediaPlayer);
  }

  // ---------------------------------------------------------------------------
  // Round trip through the scanner's parser
  // ---------------------------------------------------------------------------

  /** Every configured value that the descriptor carries is advertisable. */
  predicate AdvertisableIdentity(id: Identity) {
    && Advertisable(id.applicationName)
    && Advertisable(id.product)
    && Advertisable(id.protocol)
    && Advertisable(id.protocolVersion)
    && Advertisable(id.protocolCapabilities)
    && Advertisable(id.version)
    && Advertisable(id.machineIdentifier)
    && Advertisable(id.deviceClass)
  }

  /** The names of `fields`, in order. */
  function Names(fields: seq<Field>): seq<string> {
    if fields == [] then [] else [fields[0].name] + Names(fields[1..])
  }

  /** The fields with their values stripped, as the header comprehension stores them. */
  function StrippedFields(fields: seq<Field>): (r: seq<Field>)
    ensures |r| == |fields|
  {
    seq(|fields|, i requires 0 <= i < |fields| => Field(fields[i].name, Strip(fields[i].value)))
  }

  /** The dictionary the scanner should recover from the descriptor of `id`. */
  function AdvertisedMap(id: Identity): Fields {
    FieldMap(StrippedFields(AdvertisedFields(id)))
  }

  /** The dictionary built from `fields`, a later field overriding an earlier one. */
  function FieldMap(fields: seq<Field>): Fields {
    if fields == [] then map[] else map[fields[0].name := fields[0].value] + FieldMap(fields[1..])
  }

  /** The keys of the dictionary are exactly the names of the fields. */
  lemma {:induction false} FieldMapKeys(fields: seq<Field>)
    ensures forall key :: key in FieldMap(fields) <==> key in Names(fields)
  {
    if fields != [] {
      FieldMapKeys(fields[1..]);
    }
  }

  /** The last field with a given name decides the value of that name. */
  lemma {:induction false} FieldMapLastWins(fields: seq<Field>, k: nat)
    requires k < |fields|
    requires forall j :: k < j < |fields| ==> fields[j].name != fields[k].name
    ensures fields[k].name in FieldMap(fields)
    ensures FieldMap(fields)[fields[k].name] == fields[k].value
  {
    var rest := fields[1..];
    var name := fields[k].name;
    if k == 0 {
      assert name !in FieldMap(rest) by {
        NamesIndex(rest);
        FieldMapKeys(rest);
        forall j | 0 <= j < |rest|
          ensures Names(rest)[j] != name
        {
          assert rest[j] == fields[j + 1];
        }
      }
    } else {
      assert rest[k - 1] == fields[k];
      FieldMapLastWins(rest, k - 1);
    }
  }

  /** `Names` lists the names position by position. */
  lemma {:induction false} NamesIndex(fields: seq<Field>)
    ensures |Names(fields)| == |fields|
    ensures forall k :: 0 <= k < |fields| ==> Names(fields)[k] == fields[k].name
  {
    if fields != [] {
      NamesIndex(fields[1..]);
      assert forall k :: 0 < k < |fields| ==> fields[k] == fields[1..][k - 1];
    }
  }

  /** A `Name: value` line of advertisable parts parses back to its name and stripped value. */
  lemma {:induction false} ParseHeaderLine(name: string, value: string)
    requires Advertisable(name) && Advertisable(value)
    ensures ParseLine(HeaderLine(name, value)) == Success(Some(Field(name, Strip(value))))
  {
    var line := HeaderLine(name, value);
    assert ':' !in name && ':' !in value;
    assert line == name + (": " + value);
    CountConcat(name, ": " + value, ':');
    assert (": " + value) == [':'] + (" " + value);
    CountConcat([':'], " " + value, ':');
    CountConcat(" ", value, ':');
    PieceBoundary(name, ": " + value, ':');
    assert RawValueOf(line) == " " + value;
    StripSkipsLeadingSpace(" ", value);
  }

  /** The header comprehension recovers every field from the lines of advertisable fields. */
  lemma {:induction false} ParseHeaderLines(fields: seq<Field>)
    requires forall k :: 0 <= k < |fields| ==> Advertisable(fields[k].name) && Advertisable(fields[k].value)
    ensures ParseHeaders(HeaderLines(fields)) == Success(FieldMap(StrippedFields(fields)))
  {
    if fields != [] {
      assert HeaderLines(fields)[1..] == HeaderLines(fields[1..]);
      assert StrippedFields(fields)[1..] == StrippedFields(fields[1..]);
      ParseHeaderLine(fields[0].name, fields[0].value);
      ParseHeaderLines(fields[1..]);
    }
  }

  /** The advertised fields are advertisable when the identity is. */
  lemma {:induction false} AdvertisedFieldsAdvertisable(id: Identity)
    requires AdvertisableIdentity(id)
    ensures forall k :: 0 <= k < |AdvertisedFields(id)| ==>
              Advertisable(AdvertisedFields(id)[k].name) && Advertisable(AdvertisedFields(id)[k].value)
  {
  }

  /** `splitlines` recovers the status line and the ten field lines from the descriptor. */
  lemma {:induction false} ResponseSplitsIntoLines(id: Identity)
    requires AdvertisableIdentity(id)
    ensures SplitLines(ResponseString(id)) == ResponseLines(id)
  {
    var fs := AdvertisedFields(id);
    var lines := ResponseLines(id);
    ResponseLayout(id);
    AdvertisedFieldsAdvertisable(id);
    forall k | 0 <= k < |lines|
      ensures NoLineBreak(lines[k])
    {
      if k > 0 {
        assert lines[k] == fs[k - 1].name + ": " + fs[k - 1].value;
      }
    }
    SplitLinesOfCrlfTerminated(lines);
  }

  /** The header comprehension over the descriptor's lines yields the advertised fields. */
  lemma {:induction false} ResponseLinesParse(id: Identity)
    requires AdvertisableIdentity(id)
    ensures ParseHeaders(ResponseLines(id)) == Success(AdvertisedMap(id))
  {
    var fs := AdvertisedFields(id);
    AdvertisedFieldsAdvertisable(id);
    ParseHeaderLines(fs);
    assert ResponseLines(id)[1..] == HeaderLines(fs);
    assert ':' !in StatusLine;
  }

  /**
    Round trip: when no configured value holds a colon or a line break, the
    scanner accepts the descriptor and recovers the advertised fields, each
    value stripped.
  */
  lemma {:induction false} ResponseRoundTrip(id: Identity)
    requires AdvertisableIdentity(id)
    ensures ProcessReply(ResponseString(id)) == Success(Accepted(AdvertisedMap(id)))
  {
    ResponseSplitsIntoLines(id);
    ResponseLinesParse(id);
    StatusLineAccepted();
    assert ResponseLines(id)[0] == StatusLine;
  }

  /** The status line passes the scanner's "200 OK" test. */
  lemma {:induction false} StatusLineAccepted()
    ensures Contains(StatusLine, StatusOk)
  {
    assert StatusLine[9..] == StatusOk;
  }

  /** Stripping the values keeps the names. */
  lemma {:induction false} StrippedFieldsNames(fields: seq<Field>)
    ensures Names(StrippedFields(fields)) == Names(fields)
  {
    if fields != [] {
      assert StrippedFields(fields)[1..] == StrippedFields(fields[1..]);
      StrippedFieldsNames(fields[1..]);
    }
  }

  /**
    When no two fields share a name, the dictionary built from the stripped
    fields has exactly their names as keys and maps each to its stripped value.
  */
  lemma {:induction false} StrippedFieldMap(fields: seq<Field>)
    requires forall i, j :: 0 <= i < j < |fields| ==> fields[i].name != fields[j].name
    ensures forall key :: key in FieldMap(StrippedFields(fields)) <==> key in Names(fields)
    ensures forall k :: 0 <= k < |fields| ==>
              fields[k].name in FieldMap(StrippedFields(fields)) &&
              FieldMap(StrippedFields(fields))[fields[k].name] == Strip(fields[k].value)
  {
    var sfs := StrippedFields(fields);
    FieldMapKeys(sfs);
    StrippedFieldsNames(fields);
    forall k | 0 <= k < |fields|
      ensures fields[k].name in FieldMap(sfs) && FieldMap(sfs)[fields[k].name] == Strip(fields[k].value)
    {
      FieldMapLastWins(sfs, k);
    }
  }

  /** The value of one field, when no two fields share a name. */
  lemma {:induction false} StrippedLookup(fields: seq<Field>, k: nat)
    requires k < |fields|
    requires forall i, j :: 0 <= i < j < |fields| ==> fields[i].name != fields[j].name
    ensures fields[k].name in FieldMap(StrippedFields(fields))
    ensures FieldMap(StrippedFields(fields))[fields[k].name] == Strip(fields[k].value)
  {
    FieldMapLastWins(StrippedFields(fields), k);
  }

  /** No two advertised fields share a name. */
  lemma {:induction false} AdvertisedNamesDistinct(id: Identity)
    ensures var fs := AdvertisedFields(id);
            forall i, j :: 0 <= i < j < |fs| ==> fs[i].name != fs[j].name
  {
  }

  /** The names of the advertised fields, in the order of the descriptor. */
  lemma {:induction false} AdvertisedNames(id: Identity)
    ensures Names(AdvertisedFields(id)) ==
              [NameHeader, PortHeader, ProductHeader, ContentTypeHeader, ProtocolHeader,
               ProtocolVersionHeader, CapabilitiesHeader, VersionHeader, IdentifierHeader, DeviceClassHeader]
  {
    NamesIndex(AdvertisedFields(id));
  }

  /** The recovered dictionary holds exactly the ten header names. */
  lemma {:induction false} RecoveredKeys(id: Identity)
    ensures forall key :: key in AdvertisedMap(id) <==>
              key in [NameHeader, PortHeader, ProductHeader, ContentTypeHeader, ProtocolHeader,
                      ProtocolVersionHeader, CapabilitiesHeader, VersionHeader, IdentifierHeader, DeviceClassHeader]
  {
    AdvertisedNamesDistinct(id);
    StrippedFieldMap(AdvertisedFields(id));
    AdvertisedNames(id);
  }

  /** Each advertised field is recovered under its name with its value stripped. */
  lemma {:induction false} RecoveredValues(id: Identity)
    ensures var fs := AdvertisedFields(id);
            forall k :: 0 <= k < |fs| ==> fs[k].name in AdvertisedMap(id) && AdvertisedMap(id)[fs[k].name] == Strip(fs[k].value)
  {
    AdvertisedNamesDistinct(id);
    StrippedFieldMap(AdvertisedFields(id));
  }

  /** A value without surrounding whitespace is stored verbatim. */
  lemma {:induction false} StrippedLookupUnchanged(fields: seq<Field>, k: nat, name: string, value: string)
    requires k < |fields| && fields[k] == Field(name, value)
    requires forall i, j :: 0 <= i < j < |fields| ==> fields[i].name != fields[j].name
    requires value != [] ==> !IsSpace(value[0]) && !IsSpace(value[|value| - 1])
    ensures name in FieldMap(StrippedFields(fields)) && FieldMap(StrippedFields(fields))[name] == value
  {
    StrippedLookup(fields, k);
    StripUnchanged(value);
  }

  /** The scanner reads the advertised port verbatim. */
  lemma {:induction false} RecoveredPort(id: Identity)
    ensures PortHeader in AdvertisedMap(id) && AdvertisedMap(id)[PortHeader] == PortValue
  {
    AdvertisedNamesDistinct(id);
    StrippedLookupUnchanged(AdvertisedFields(id), 1, PortHeader, PortValue);
  }

  /** The scanner reads the advertised content type verbatim, so a query for media players finds the device. */
  lemma {:induction false} RecoveredContentType(id: Identity)
    ensures ContentTypeHeader in AdvertisedMap(id) && AdvertisedMap(id)[ContentTypeHeader] == MediaPlayer
  {
    AdvertisedNamesDistinct(id);
    StrippedLookupUnchanged(AdvertisedFields(id), 3, ContentTypeHeader, MediaPlayer);
  }

  /** The identifier the scanner deduplicates by is the stripped machine identifier. */
  lemma {:induction false} RecoveredIdentifier(id: Identity)
    ensures Identifier(AdvertisedMap(id)) == Some(Strip(id.machineIdentifier))
  {
    AdvertisedNamesDistinct(id);
    StrippedLookup(AdvertisedFields(id), 8);
  }

  // ---------------------------------------------------------------------------
  // The responder seen by a scan
  // ---------------------------------------------------------------------------

  /**
    A device that answers a scan twice, with a non-blank machine identifier,
    is listed once, under the address of its first answer.
  */
  lemma {:induction false} ResponderListedOnce(id: Identity, a: Address, b: Address)
    requires AdvertisableIdentity(id) && Strip(id.machineIdentifier) != []
    ensures Scanned([Reply(ResponseString(id), a), Reply(ResponseString(id), b)]) ==
              ScanOutcome(ScanState([Entry(AdvertisedMap(id), a)], [Some(Strip(id.machineIdentifier))]), None)
  {
    ResponseRoundTrip(id);
    RecoveredIdentifier(id);
    RepeatedReply(ResponseString(id), AdvertisedMap(id), a, b);
  }

  /** A device whose machine identifier is blank is listed once per answer. */
  lemma {:induction false} AnonymousResponderListedTwice(id: Identity, a: Address, b: Address)
    requires AdvertisableIdentity(id) && Strip(id.machineIdentifier) == []
    ensures Scanned([Reply(ResponseString(id), a), Reply(ResponseString(id), b)]).state.entries ==
              [Entry(AdvertisedMap(id), a), Entry(AdvertisedMap(id), b)]
  {
    ResponseRoundTrip(id);
    RecoveredIdentifier(id);
    RepeatedReply(ResponseString(id), AdvertisedMap(id), a, b);
  }

  /** The responder as configured in gdm.py is recovered by a scan and identified as "test123". */
  lemma {:induction false} SourceResponderListedOnce(a: Address, b: Address)
    ensures AdvertisableIdentity(SourceIdentity)
    ensures Identifier(AdvertisedMap(SourceIdentity)) == Some("test123")
    ensures Scanned([Reply(ResponseString(SourceIdentity), a), Reply(ResponseString(SourceIdentity), b)]).state.entries ==
              [Entry(AdvertisedMap(SourceIdentity), a)]
  {
    RecoveredIdentifier(SourceIdentity);
    StripUnchanged(MachineIdentifier);
    ResponderListedOnce(SourceIdentity, a, b);
  }
}
