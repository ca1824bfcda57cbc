/**
  Coded-value domain lookup (GeoDBUtil.GetDomainDesc): a domain pairs each
  code with a human-readable description, and the lookup turns a code back
  into its description.
 */
module GeoDBUtil {
  import opened FirstMatch

  /** A coded-value domain as two parallel sequences: `codes[i]` is the
      string form of the domain's `Value[i]` and `names[i]` its `Name[i]`. */
  datatype CodedValueDomain = CodedValueDomain(codes: seq<string>, names: seq<string>)
  {
    /** The toolkit exposes exactly `CodeCount` values and `CodeCount` names. */
    predicate Valid() {
      |codes| == |names|
    }

    function CodeCount(): nat {
      |codes|
    }
  }

  /** The test the lookup applies to each code. */
  function CodeIs(sCode: string): string -> bool {
    c => c == sCode
  }

  /** The description of `sCode`: that of the first entry whose code is
      `sCode`, or `""` when no entry has it. */
  function DomainDesc(domain: CodedValueDomain, sCode: string): (r: string)
    requires domain.Valid()
    ensures (forall k :: 0 <= k < domain.CodeCount() ==> domain.codes[k] != sCode) ==> r == ""
    ensures forall j ::
      (0 <= j < domain.CodeCount() && domain.codes[j] == sCode &&
       forall k :: 0 <= k < j ==> domain.codes[k] != sCode) ==> r == domain.names[j]
    ensures r == "" || r in domain.names
  {
    match FirstIndex(domain.codes, CodeIs(sCode))
    case None => ""
    case Some(j) => domain.names[j]
  }

  /** The lookup as the source writes it: a counting loop that records the
      description of a matching code and leaves the loop by setting the
      index to `CodeCount`, so that the increment takes it past the bound. */
  method GetDomainDesc(domain: CodedValueDomain, sCode: string) returns (sDesc: string)
    requires domain.Valid()
    ensures sDesc == DomainDesc(domain, sCode)
  {
    sDesc := "";
    var i := 0;
    while i < domain.CodeCount()
      invariant 0 <= i <= domain.CodeCount() + 1
      invariant i <= domain.CodeCount() ==> sDesc == "" && forall k :: 0 <= k < i ==> domain.codes[k] != sCode
      invariant i == domain.CodeCount() + 1 ==> sDesc == DomainDesc(domain, sCode)
      decreases domain.CodeCount() + 1 - i
    {
      if domain.codes[i] == sCode {
        sDesc := domain.names[i];
        i := domain.CodeCount();
      }
      i := i + 1;
    }
  }

  /** Entries after the first match are ignored: extending a domain that
      already holds `sCode` does not change its description. */
  lemma LaterEntriesIgnored(domain: CodedValueDomain, more: CodedValueDomain, sCode: string)
    requires domain.Valid() && more.Valid()
    requires sCode in domain.codes
    ensures DomainDesc(CodedValueDomain(domain.codes + more.codes, domain.names + more.names), sCode)
         == DomainDesc(domain, sCode)
  {
    var j :| 0 <= j < |domain.codes| && domain.codes[j] == sCode;
    assert CodeIs(sCode)(domain.codes[j]);
    FirstIndexAppend(domain.codes, more.codes, CodeIs(sCode));
  }

  /** With codes "1", "2", "3" described as "A", "B", "C", the code "2"
      reads "B" and the absent code "9" reads "". */
  lemma DomainDescExample()
    ensures DomainDesc(CodedValueDomain(["1", "2", "3"], ["A", "B", "C"]), "2") == "B"
    ensures DomainDesc(CodedValueDomain(["1", "2", "3"], ["A", "B", "C"]), "9") == ""
  {
  }
}
