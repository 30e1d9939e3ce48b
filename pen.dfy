/**
 * Vendor-namespaced attribute types: a Private Enterprise Number (PEN) and a
 * 32-bit type number that is meaningful within that vendor's namespace.
 * The numeric values of the IETF types are those of RFC 5792 (section 4.2
 * and section 4.2.10); the ITA values are strongSwan's own.
 */
module Pen {
  import opened Bytes

  datatype PenType = PenType(vendorId: Uint32, attrType: Uint32)

  /** The IETF namespace (PEN 0) */
  const PenIetf: Uint32 := 0
  /** Institute for Internet Technologies and Applications, HSR (PEN 36906) */
  const PenIta: Uint32 := 36906

  // IETF PA-TNC attribute types (section 4.2 of RFC 5792)
  const IetfAttrAttributeRequest: Uint32 := 1
  const IetfAttrProductInformation: Uint32 := 2
  const IetfAttrStringVersion: Uint32 := 4
  const IetfAttrRemediationInstructions: Uint32 := 10

  // IETF Remediation Parameters types (section 4.2.10 of RFC 5792)
  const IetfRemediationParametersUri: Uint32 := 1
  const IetfRemediationParametersString: Uint32 := 2

  // ITA attribute types
  const ItaAttrGetSettings: Uint32 := 3
  const ItaAttrSettings: Uint32 := 4
}
