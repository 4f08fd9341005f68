/** Resource-record TYPE and CLASS codes (section 3.2.2 and 3.2.4 of
    RFC 1035) as the library enumerates them, and the names std::to_string
    gives them. Both enumerations are 16-bit, and a cast from the wire can
    produce any 16-bit value, so a code is a u16. */
module DnsTypes {
  import opened Wire

  const TYPE_A: u16 := 1
  const TYPE_NS: u16 := 2
  const TYPE_CNAME: u16 := 5
  const TYPE_PTR: u16 := 12
  const TYPE_HINFO: u16 := 13
  const TYPE_MINFO: u16 := 14
  const TYPE_MX: u16 := 15
  const TYPE_TXT: u16 := 16

  const CLASS_IN: u16 := 1

  /** The codes to_string has a case for. CNAME is not among them. */
  predicate Named(t: u16)
  {
    t == TYPE_A || t == TYPE_NS || t == TYPE_PTR || t == TYPE_HINFO
      || t == TYPE_MINFO || t == TYPE_MX || t == TYPE_TXT
  }

  /** std::to_string(TYPE): the mnemonic, or "Unknown" without a case. */
  function TypeName(t: u16): (s: string)
    ensures s == "Unknown" <==> !Named(t)
    ensures Named(t) ==> 1 <= |s| <= 5
  {
    if t == TYPE_A then "A"
    else if t == TYPE_NS then "NS"
    else if t == TYPE_PTR then "PTR"
    else if t == TYPE_HINFO then "HINFO"
    else if t == TYPE_MINFO then "MINFO"
    else if t == TYPE_MX then "MX"
    else if t == TYPE_TXT then "TXT"
    else "Unknown"
  }

  /** Different named codes print differently, so for them the name can be
      read back as the code. */
  lemma TypeNameInjective(s: u16, t: u16)
    requires Named(s) && TypeName(s) == TypeName(t)
    ensures s == t
  {
  }

  /** CNAME, although a declared code, prints as "Unknown". */
  lemma CnamePrintsUnknown()
    ensures TypeName(TYPE_CNAME) == "Unknown"
    ensures TypeName(TYPE_CNAME) == TypeName(999)
  {
  }
}
