/**
 * The PA-TNC Remediation Instructions attribute (section 4.2.10 of RFC 5792)
 * with its URI (section 4.2.10.1) and String (section 4.2.10.2) parameter
 * sub-types.
 *
 * The attribute value is one reserved octet, a 24-bit Remediation Parameters
 * Vendor ID, a 32-bit Remediation Parameters Type and the variable-length
 * Remediation Parameters. The pure functions below give the encodings and
 * what a reader recovers from a value; the class RemediationInstr is the
 * attribute object whose fields `Build` and `Process` fill in.
 */
module IetfRemediationInstr {
  import opened Wrappers
  import opened Bytes
  import opened Pen

  /** Size of the fixed part of the value (REMEDIATION_INSTR_MIN_SIZE) */
  const MinSize: nat := 8
  /** Value of the reserved octet (REMEDIATION_INSTR_RESERVED) */
  const Reserved: Byte := 0
  /** create_from_string keeps at most this many octets of the language code */
  const MaxLangCodeLen: nat := 255

  /** The status_t values that process returns */
  datatype Status = Success | Failed

  const RemediationInstrType: PenType := PenType(PenIetf, IetfAttrRemediationInstructions)
  const UriParametersType: PenType := PenType(PenIetf, IetfRemediationParametersUri)
  const StringParametersType: PenType := PenType(PenIetf, IetfRemediationParametersString)

  /** True when no octet of s is NUL */
  predicate NoNul(s: seq<Byte>) {
    forall j :: 0 <= j < |s| ==> s[j] != 0
  }

  /** Index of the first NUL octet of s, if any (what memchr finds) */
  function FirstNul(s: seq<Byte>): (r: Option<nat>)
    ensures r.None? <==> NoNul(s)
    ensures r.Some? ==> r.value < |s| && s[r.value] == 0 && NoNul(s[..r.value])
  {
    if |s| == 0 then None
    else if s[0] == 0 then Some(0)
    else
      match FirstNul(s[1..])
      case Some(i) => assert s[..i + 1] == [s[0]] + s[1..][..i]; Some(i + 1)
      case None => None
  }

  // ----------------------------------------------------------------------
  // Encodings
  // ----------------------------------------------------------------------

  /**
   * The value that build writes: the reserved octet, the low 24 bits of the
   * parameters vendor id, the parameters type, then the parameters.
   */
  function EncodeValue(parametersType: PenType, parameters: seq<Byte>): (v: seq<Byte>)
    ensures |v| == MinSize + |parameters|
    ensures v[0] == Reserved
    ensures Uint24At(v, 1) == parametersType.vendorId % Two24
    ensures Uint32At(v, 4) == parametersType.attrType
    ensures v[MinSize..] == parameters
  {
    [Reserved] + Uint24Bytes(parametersType.vendorId % Two24) + Uint32Bytes(parametersType.attrType) + parameters
  }

  /** The language code limited to 255 octets, as create_from_string does */
  function CapLangCode(langCode: seq<Byte>): (r: seq<Byte>)
    ensures |r| <= MaxLangCodeLen && r <= langCode
    ensures |langCode| <= MaxLangCodeLen ==> r == langCode
    ensures |langCode| > MaxLangCodeLen ==> |r| == MaxLangCodeLen
  {
    if |langCode| <= MaxLangCodeLen then langCode else langCode[..MaxLangCodeLen]
  }

  /**
   * String parameters: a 32-bit length (write_data32 keeps the low 32 bits of
   * the length), the string, an 8-bit length and the language code.
   */
  function EncodeStringParameters(text: seq<Byte>, langCode: seq<Byte>): (p: seq<Byte>)
    requires |langCode| <= MaxLangCodeLen
    ensures |p| == 5 + |text| + |langCode|
    ensures Uint32At(p, 0) == |text| % Two32
    ensures p[4..4 + |text|] == text
    ensures p[4 + |text|] == |langCode| && p[5 + |text|..] == langCode
  {
    Uint32Bytes(|text| % Two32) + text + [|langCode|] + langCode
  }

  // ----------------------------------------------------------------------
  // What process reads
  // ----------------------------------------------------------------------

  /** The fixed part of a value as the header reader sees it */
  datatype Header = Header(parametersType: PenType, parameters: seq<Byte>)

  /** Reading the header: nothing is read from a value shorter than MinSize */
  function ParseHeader(v: seq<Byte>): (h: Option<Header>)
    ensures h.None? <==> |v| < MinSize
    ensures h.Some? ==> h.value.parameters == v[MinSize..] && |v| == MinSize + |h.value.parameters|
    ensures h.Some? ==> h.value.parametersType.vendorId < Two24
    ensures h.Some? ==> h.value.parametersType == PenType(Uint24At(v, 1), Uint32At(v, 4))
  {
    if |v| < MinSize then None
    else Some(Header(PenType(Uint24At(v, 1), Uint32At(v, 4)), v[MinSize..]))
  }

  /**
   * Outcome of reading String parameters: the status, the error offset
   * (counted from the start of the attribute value), and the string and the
   * language code when their reads succeeded.
   */
  datatype StringRead = StringRead(status: Status, offset: nat, text: Option<seq<Byte>>, langCode: Option<seq<Byte>>)

  /** Reading String parameters p (which start at offset 8 of the value) */
  function ReadStringParameters(p: seq<Byte>): (r: StringRead)
    ensures r.text.None? <==> |p| < 4 || |p| < 4 + Uint32At(p, 0)
    ensures r.text.None? ==> r == StringRead(Failed, 8, None, None)
    ensures r.text.Some? ==> 4 + |r.text.value| <= |p| && Uint32At(p, 0) == |r.text.value|
                             && p[4..4 + |r.text.value|] == r.text.value
    ensures r.text.Some? && !NoNul(r.text.value) ==>
              r.status == Failed && r.langCode.None? && r.offset == 9 + FirstNul(r.text.value).value
    ensures r.text.Some? && NoNul(r.text.value) ==> r.offset == 12 + |r.text.value|
    ensures r.status == Success <==> r.langCode.Some?
    ensures r.langCode.Some? ==> r.text.Some? && NoNul(r.text.value) && |r.langCode.value| <= MaxLangCodeLen
    ensures r.langCode.Some? ==>
              var n := |r.text.value|;
              5 + n + |r.langCode.value| <= |p| && p[4 + n] == |r.langCode.value|
              && p[5 + n..5 + n + |r.langCode.value|] == r.langCode.value
  {
    if |p| < 4 || |p| < 4 + Uint32At(p, 0) then StringRead(Failed, 8, None, None)
    else
      var n: int := Uint32At(p, 0);
      var text := p[4..4 + n];
      match FirstNul(text)
      case Some(i) => StringRead(Failed, 8 + 1 + i, Some(text), None)
      case None =>
        var m: int := if |p| < 5 + n then 0 else p[4 + n];
        if |p| < 5 + n || |p| < 5 + n + m then StringRead(Failed, 8 + 4 + n, Some(text), None)
        else StringRead(Success, 8 + 4 + n, Some(text), Some(p[5 + n..5 + n + m]))
  }

  /** Octets holding the length, the string, the code length and the code in order start with their encoding */
  lemma EncodingIsPrefix(p: seq<Byte>, text: seq<Byte>, lang: seq<Byte>)
    requires |lang| <= MaxLangCodeLen && 5 + |text| + |lang| <= |p|
    requires Uint32At(p, 0) == |text| && p[4..4 + |text|] == text
    requires p[4 + |text|] == |lang| && p[5 + |text|..5 + |text| + |lang|] == lang
    ensures EncodeStringParameters(text, lang) <= p
  {
    var n := |text|;
    var e := EncodeStringParameters(text, lang);
    assert n % Two32 == n;
    assert e[..4] == Uint32Bytes(n);
    Uint32Canonical(p, 0);
    forall k | 0 <= k < |e| ensures e[k] == p[k] {
      if k < 4 {
        assert e[k] == e[..4][k] && p[k] == p[..4][k];
      } else if k < 4 + n {
        assert e[k] == e[4..4 + n][k - 4] && p[k] == p[4..4 + n][k - 4];
      } else if k > 4 + n {
        assert e[k] == e[5 + n..][k - 5 - n] && p[k] == p[5 + n..5 + n + |lang|][k - 5 - n];
      }
    }
    assert e == p[..|e|];
  }

  /** What a successful read returns is a prefix of p: p starts with the encoding of the string and the language code */
  lemma ReadStringIsPrefix(p: seq<Byte>)
    requires ReadStringParameters(p).status == Success
    ensures var r := ReadStringParameters(p);
            EncodeStringParameters(r.text.value, r.langCode.value) <= p
  {
    var r := ReadStringParameters(p);
    EncodingIsPrefix(p, r.text.value, r.langCode.value);
  }

  /** Everything process determines from a value */
  datatype Processed = Processed(status: Status, offset: nat, header: Option<Header>,
                                 text: Option<seq<Byte>>, langCode: Option<seq<Byte>>)

  /** What process yields for the value v */
  function ProcessValue(v: seq<Byte>): (r: Processed)
    ensures r.header.None? <==> |v| < MinSize
    ensures r.header.Some? ==> r.header.value.parameters == v[MinSize..]
    ensures r.text.Some? ==> r.header.Some? && r.header.value.parametersType == StringParametersType
    ensures r.langCode.Some? ==> r.text.Some?
    ensures r.status == Success <==>
              r.header.Some? && (r.header.value.parametersType != StringParametersType || r.langCode.Some?)
  {
    match ParseHeader(v)
    case None => Processed(Failed, 0, None, None, None)
    case Some(h) =>
      if h.parametersType == StringParametersType then
        var s := ReadStringParameters(h.parameters);
        Processed(s.status, s.offset, Some(h), s.text, s.langCode)
      else
        Processed(Success, 0, Some(h), None, None)
  }

  // ----------------------------------------------------------------------
  // Properties of the codec
  // ----------------------------------------------------------------------

  /** A value shorter than the fixed part fails with offset 0 and nothing read */
  lemma ShortValueRejected(v: seq<Byte>)
    requires |v| < MinSize
    ensures ProcessValue(v) == Processed(Failed, 0, None, None, None)
  {
  }

  /** Reading back a built value recovers the parameters type and the parameters */
  lemma BuildThenParse(parametersType: PenType, parameters: seq<Byte>)
    requires parametersType.vendorId < Two24
    ensures ParseHeader(EncodeValue(parametersType, parameters)) == Some(Header(parametersType, parameters))
  {
    var v := EncodeValue(parametersType, parameters);
    assert Uint24At(v, 1) == parametersType.vendorId;
  }

  /** Writing a parsed header again gives the same value except for the reserved octet */
  lemma ParseThenBuild(v: seq<Byte>)
    requires |v| >= MinSize
    ensures var h := ParseHeader(v).value;
            EncodeValue(h.parametersType, h.parameters) == [Reserved] + v[1..]
  {
    var h := ParseHeader(v).value;
    Uint24Canonical(v, 1);
    Uint32Canonical(v, 4);
    var w := EncodeValue(h.parametersType, h.parameters);
    assert w == [Reserved] + v[1..4] + v[4..8] + v[8..];
    assert v[1..] == v[1..4] + v[4..8] + v[8..];
  }

  /** The reserved octet is ignored on read */
  lemma ReservedIgnored(v: seq<Byte>, b: Byte)
    requires |v| >= 1
    ensures ProcessValue([b] + v[1..]) == ProcessValue(v)
  {
    var w := [b] + v[1..];
    assert w[1..] == v[1..];
    assert |w| == |v|;
    if |v| >= MinSize {
      assert w[1] == v[1] && w[2] == v[2] && w[3] == v[3];
      assert w[4] == v[4] && w[5] == v[5] && w[6] == v[6] && w[7] == v[7];
      assert w[MinSize..] == v[MinSize..];
    }
  }

  /** Parameters of any type other than IETF String are taken whole, with success and offset 0 */
  lemma OtherParametersAccepted(v: seq<Byte>)
    requires |v| >= MinSize
    requires PenType(Uint24At(v, 1), Uint32At(v, 4)) != StringParametersType
    ensures ProcessValue(v) == Processed(Success, 0, Some(Header(PenType(Uint24At(v, 1), Uint32At(v, 4)), v[MinSize..])), None, None)
  {
  }

  /** The error offset never points past the end of the value */
  lemma OffsetWithinValue(v: seq<Byte>)
    ensures ProcessValue(v).offset <= |v|
  {
    if |v| >= MinSize {
      var p := v[MinSize..];
      var r := ReadStringParameters(p);
      if r.text.Some? && !NoNul(r.text.value) {
        assert FirstNul(r.text.value).value < |r.text.value|;
      }
    }
  }

  /** A string whose 4-octet length or body is cut short fails at offset 8 */
  lemma TruncatedStringRejected(text: seq<Byte>, cut: nat)
    requires |text| < Two32 && cut < 4 + |text|
    ensures ReadStringParameters((Uint32Bytes(|text|) + text)[..cut]) == StringRead(Failed, 8, None, None)
  {
    var p := (Uint32Bytes(|text|) + text)[..cut];
    if cut >= 4 {
      Uint32AtSlice(Uint32Bytes(|text|) + text, p[..4], 0);
      assert p[..4] == Uint32Bytes(|text|);
      Uint32AtSlice(p, p[..4], 0);
    }
  }

  /** A NUL at index i of the string fails at offset 9 + i, with the string read */
  lemma NulRejected(text: seq<Byte>, i: nat, rest: seq<Byte>)
    requires |text| < Two32 && i < |text| && text[i] == 0 && NoNul(text[..i])
    ensures ReadStringParameters(Uint32Bytes(|text|) + text + rest) == StringRead(Failed, 9 + i, Some(text), None)
  {
    var p := Uint32Bytes(|text|) + text + rest;
    Uint32AtSlice(p, Uint32Bytes(|text|), 0);
    assert p[4..4 + |text|] == text;
  }

  /** A string without NUL followed by a missing or short language code fails at offset 12 + |text| */
  lemma LangCodeTruncated(text: seq<Byte>, rest: seq<Byte>)
    requires |text| < Two32 && NoNul(text)
    requires |rest| == 0 || |rest| < 1 + rest[0] as int
    ensures ReadStringParameters(Uint32Bytes(|text|) + text + rest) == StringRead(Failed, 12 + |text|, Some(text), None)
  {
    var p := Uint32Bytes(|text|) + text + rest;
    Uint32AtSlice(p, Uint32Bytes(|text|), 0);
    assert p[4..4 + |text|] == text;
    if |rest| > 0 {
      assert p[4 + |text|] == rest[0];
    }
  }

  /** String parameters read back: the string, the language code, success, offset 12 + |text|; trailing octets are ignored */
  lemma StringParametersRoundTrip(text: seq<Byte>, langCode: seq<Byte>, rest: seq<Byte>)
    requires |text| < Two32 && NoNul(text) && |langCode| <= MaxLangCodeLen
    ensures ReadStringParameters(EncodeStringParameters(text, langCode) + rest)
         == StringRead(Success, 12 + |text|, Some(text), Some(langCode))
  {
    var e := EncodeStringParameters(text, langCode);
    var p := e + rest;
    var n := |text|;
    Uint32AtSlice(p, e, 0);
    assert Uint32At(p, 0) == n;
    assert p[4..4 + n] == e[4..4 + n] == text;
    assert FirstNul(text).None?;
    assert p[4 + n] == e[4 + n] == |langCode|;
    assert p[5 + n..5 + n + |langCode|] == e[5 + n..] == langCode;
  }

  /** The whole attribute made by create_from_string, once built, processes back to the string and the capped language code */
  lemma StringAttributeRoundTrip(text: seq<Byte>, langCode: seq<Byte>)
    requires |text| < Two32 && NoNul(text)
    ensures (var params := EncodeStringParameters(text, CapLangCode(langCode));
             ProcessValue(EncodeValue(StringParametersType, params))
             == Processed(Success, 12 + |text|, Some(Header(StringParametersType, params)),
                          Some(text), Some(CapLangCode(langCode))))
  {
    var params := EncodeStringParameters(text, CapLangCode(langCode));
    BuildThenParse(StringParametersType, params);
    StringParametersRoundTrip(text, CapLangCode(langCode), []);
    assert params + [] == params;
  }

  // ----------------------------------------------------------------------
  // The attribute object
  // ----------------------------------------------------------------------

  /** A Remediation Instructions attribute (private_ietf_attr_remediation_instr_t) */
  class RemediationInstr {
    /** Vendor-specific attribute type */
    var attrType: PenType
    /** Attribute value; empty until built or given as data */
    var value: seq<Byte>
    var noskipFlag: bool
    var parametersType: PenType
    var parameters: seq<Byte>
    /** The Remediation String, when the parameters are of the String type */
    var text: seq<Byte>
    var langCode: seq<Byte>

    /** ietf_attr_remediation_instr_create: an attribute to be built from parameters */
    constructor Create(parametersType: PenType, parameters: seq<Byte>)
      ensures attrType == RemediationInstrType && value == [] && !noskipFlag
      ensures this.parametersType == parametersType && this.parameters == parameters
      ensures text == [] && langCode == []
    {
      attrType := RemediationInstrType;
      value := [];
      noskipFlag := false;
      this.parametersType := parametersType;
      this.parameters := parameters;
      text, langCode := [], [];
    }

    /** ietf_attr_remediation_instr_create_from_data: an attribute to be processed from received data */
    constructor FromData(data: seq<Byte>)
      ensures attrType == RemediationInstrType && value == data && !noskipFlag
      ensures parametersType == PenType(0, 0) && parameters == []
      ensures text == [] && langCode == []
    {
      attrType := RemediationInstrType;
      value := data;
      noskipFlag := false;
      parametersType := PenType(0, 0);
      parameters := [];
      text, langCode := [], [];
    }

    function GetType(): PenType reads this { attrType }

    function GetValue(): seq<Byte> reads this { value }

    function GetNoskipFlag(): bool reads this { noskipFlag }

    method SetNoskipFlag(noskip: bool)
      modifies this`noskipFlag
      ensures noskipFlag == noskip
    {
      noskipFlag := noskip;
    }

    function GetParametersType(): PenType reads this { parametersType }

    function GetParameters(): seq<Byte> reads this { parameters }

    function GetUri(): seq<Byte> reads this { parameters }

    /** The Remediation String and its language code */
    function GetString(): (seq<Byte>, seq<Byte>) reads this { (text, langCode) }

    /**
     * Writes the value from the parameters type and the parameters, unless a
     * value is already present (then nothing changes).
     */
    method Build()
      modifies this`value
      ensures old(value) != [] ==> value == old(value)
      ensures old(value) == [] ==> value == EncodeValue(parametersType, parameters)
      ensures value != []
    {
      if value != [] {
        return;
      }
      var writer: seq<Byte> := [Reserved];
      writer := writer + Uint24Bytes(parametersType.vendorId % Two24);
      writer := writer + Uint32Bytes(parametersType.attrType);
      writer := writer + parameters;
      value := writer;
    }

    /**
     * Reads the header and, for IETF String parameters, the string and the
     * language code; returns the status and the error offset.
     */
    method Process() returns (status: Status, offset: nat)
      modifies this`parametersType, this`parameters, this`text, this`langCode
      ensures var r := ProcessValue(value);
              && status == r.status && offset == r.offset
              && (r.header.Some? ==> parametersType == r.header.value.parametersType
                                     && parameters == r.header.value.parameters)
              && (r.header.None? ==> parametersType == old(parametersType) && parameters == old(parameters))
              && text == r.text.GetOr(old(text))
              && langCode == r.langCode.GetOr(old(langCode))
    {
      offset := 0;
      var v := value;
      if |v| < MinSize {
        return Failed, offset;
      }
      // the header reader skips the reserved octet
      var pos := 1;
      var vendorId := Uint24At(v, pos);
      pos := pos + 3;
      var paramType := Uint32At(v, pos);
      pos := pos + 4;
      var params := v[pos..];
      parametersType, parameters := PenType(vendorId, paramType), params;
      status := Success;
      assert ParseHeader(v) == Some(Header(PenType(vendorId, paramType), params));

      if PenType(vendorId, paramType) == StringParametersType {
        status := Failed;
        offset := 8;
        // the string reader works on the parameters
        if |params| < 4 || |params| < 4 + Uint32At(params, 0) {
          return;
        }
        var len: int := Uint32At(params, 0);
        var str := params[4..4 + len];
        text := str;
        pos := 4 + len;
        var nul := FirstNul(str);
        if nul.Some? {
          offset := offset + 1 + nul.value;
          return;
        }
        offset := offset + 4 + |str|;
        if |params| < pos + 1 || |params| < pos + 1 + params[pos] as int {
          return;
        }
        langCode := params[pos + 1..pos + 1 + params[pos]];
        status := Success;
      }
    }
  }

  /** ietf_attr_remediation_instr_create_from_uri */
  method CreateFromUri(uri: seq<Byte>) returns (attr: RemediationInstr)
    ensures fresh(attr)
    ensures attr.GetType() == RemediationInstrType && attr.GetParametersType() == UriParametersType
    ensures attr.GetUri() == uri && attr.GetValue() == []
  {
    attr := new RemediationInstr.Create(UriParametersType, uri);
  }

  /** ietf_attr_remediation_instr_create_from_string: the String parameters are written up front */
  method CreateFromString(text: seq<Byte>, langCode: seq<Byte>) returns (attr: RemediationInstr)
    ensures fresh(attr)
    ensures attr.GetType() == RemediationInstrType && attr.GetParametersType() == StringParametersType
    ensures attr.GetParameters() == EncodeStringParameters(text, CapLangCode(langCode))
    ensures attr.GetValue() == []
  {
    var lang := langCode;
    if |lang| > MaxLangCodeLen {
      lang := lang[..MaxLangCodeLen];
    }
    var writer := Uint32Bytes(|text| % Two32) + text;
    writer := writer + [|lang|] + lang;
    attr := new RemediationInstr.Create(StringParametersType, writer);
  }

  // ----------------------------------------------------------------------
  // Sender and receiver together
  // ----------------------------------------------------------------------

  /**
   * A string attribute, built by the sender and processed by a receiver that
   * gets the bytes as data, yields the string and the capped language code.
   */
  method StringRoundTrip(text: seq<Byte>, langCode: seq<Byte>)
    returns (status: Status, offset: nat, received: seq<Byte>, receivedLang: seq<Byte>)
    requires |text| < Two32 && NoNul(text)
    ensures status == Success && offset == 12 + |text|
    ensures received == text && receivedLang == CapLangCode(langCode)
  {
    var sender := CreateFromString(text, langCode);
    sender.Build();
    var receiver := new RemediationInstr.FromData(sender.GetValue());
    StringAttributeRoundTrip(text, langCode);
    status, offset := receiver.Process();
    received, receivedLang := receiver.GetString().0, receiver.GetString().1;
  }

  /** A URI attribute, built and processed by a receiver, yields the URI unchanged */
  method UriRoundTrip(uri: seq<Byte>)
    returns (status: Status, offset: nat, parametersType: PenType, received: seq<Byte>)
    ensures status == Success && offset == 0
    ensures parametersType == UriParametersType && received == uri
  {
    var sender := CreateFromUri(uri);
    sender.Build();
    var receiver := new RemediationInstr.FromData(sender.GetValue());
    BuildThenParse(UriParametersType, uri);
    status, offset := receiver.Process();
    parametersType, received := receiver.GetParametersType(), receiver.GetUri();
  }

  /** An attribute made from non-empty data keeps exactly those bytes when built */
  method FromDataKeepsValue(data: seq<Byte>) returns (built: seq<Byte>)
    requires data != []
    ensures built == data
  {
    var attr := new RemediationInstr.FromData(data);
    attr.Build();
    built := attr.GetValue();
  }
}
