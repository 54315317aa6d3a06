/**
 * Two file-format descriptions used to sniff the format of a chemical
 * file from one of its lines: MDL molfile V3000 and PubChem Compound ASN.1.
 */
module ChemFormats {
  import opened Wrappers
  import opened Strings

  /** A data feature a format may carry; both formats here declare none. */
  datatype DataFeature = HasAtoms | HasBonds | Has2DCoordinates | Has3DCoordinates

  /** `DataFeatures.NONE`. */
  const NoFeatures: set<DataFeature> := {}

  /** The MDL Mol/SDF V3000 format. */
  class MDLV3000Format {
    constructor ()
    {
    }

    function FormatName(): (r: string)
      ensures r == "MDL Mol/SDF V3000"
    {
      "MDL Mol/SDF V3000"
    }

    function MIMEType(): (r: Option<string>)
      ensures r == Some("chemical/x-mdl-molfile")
    {
      Some("chemical/x-mdl-molfile")
    }

    /** No preferred extension: `null`. */
    function PreferredNameExtension(): (r: Option<string>)
      ensures r.None?
    {
      None
    }

    /** No extensions at all. */
    function NameExtensions(): (r: seq<string>)
      ensures r == []
    {
      []
    }

    function ReaderClassName(): (r: Option<string>)
      ensures r == Some("org.openscience.cdk.io.MDLV3000Reader")
    {
      Some("org.openscience.cdk.io.MDLV3000Reader")
    }

    function WriterClassName(): (r: Option<string>)
      ensures r == Some("org.openscience.cdk.io.MDLV3000Writer")
    {
      Some("org.openscience.cdk.io.MDLV3000Writer")
    }

    function IsXMLBased(): (r: bool)
      ensures !r
    {
      false
    }

    function SupportedDataFeatures(): (r: set<DataFeature>)
      ensures r == NoFeatures
    {
      NoFeatures
    }

    function RequiredDataFeatures(): (r: set<DataFeature>)
      ensures r == NoFeatures
    {
      NoFeatures
    }

    /**
     * A file is V3000 when its fourth line (the counts line) mentions
     * "v3000" or "V3000" anywhere; no other line number matches.
     */
    predicate Matches(lineNumber: int, line: string)
      ensures Matches(lineNumber, line) <==>
        lineNumber == 4 &&
        ((exists i :: OccursAt(line, "v3000", i)) || (exists i :: OccursAt(line, "V3000", i)))
    {
      ContainsIff(line, "v3000");
      ContainsIff(line, "V3000");
      lineNumber == 4 && (Contains(line, "v3000") || Contains(line, "V3000"))
    }
  }

  /** The PubChem Compound ASN.1 text format. */
  class PubChemASNFormat {
    constructor ()
    {
    }

    function FormatName(): (r: string)
      ensures r == "PubChem Compound ASN"
    {
      "PubChem Compound ASN"
    }

    /** No MIME type: `null`. */
    function MIMEType(): (r: Option<string>)
      ensures r.None?
    {
      None
    }

    function NameExtensions(): (r: seq<string>)
      ensures r == ["asn"]
    {
      ["asn"]
    }

    /** The preferred extension is the first of the extensions. */
    function PreferredNameExtension(): (r: Option<string>)
      ensures |NameExtensions()| > 0 && r == Some(NameExtensions()[0])
      ensures r == Some("asn")
    {
      Some(NameExtensions()[0])
    }

    function ReaderClassName(): (r: Option<string>)
      ensures r == Some("org.openscience.cdk.io.PCCompoundASNReader")
    {
      Some("org.openscience.cdk.io.PCCompoundASNReader")
    }

    /** There is no writer: `null`. */
    function WriterClassName(): (r: Option<string>)
      ensures r.None?
    {
      None
    }

    function IsXMLBased(): (r: bool)
      ensures !r
    {
      false
    }

    function SupportedDataFeatures(): (r: set<DataFeature>)
      ensures r == NoFeatures
    {
      NoFeatures
    }

    function RequiredDataFeatures(): (r: set<DataFeature>)
      ensures r == NoFeatures
    {
      NoFeatures
    }

    /** Only a first line that begins with "PC-Compound" matches. */
    predicate Matches(lineNumber: int, line: string)
      ensures Matches(lineNumber, line) <==>
        lineNumber == 1 && exists rest :: line == "PC-Compound" + rest
    {
      var prefix := "PC-Compound";
      assert StartsWith(line, prefix) ==> line == prefix + line[|prefix|..];
      assert forall rest :: line == prefix + rest ==> line[..|prefix|] == prefix;
      if lineNumber == 1 && StartsWith(line, prefix) then true else false
    }
  }

  /**
   * The lazily created shared instances (`getInstance`): the first request
   * creates the object, every later one returns that same object.
   */
  class FormatInstances {
    var mdlV3000: Option<MDLV3000Format>
    var pubChemASN: Option<PubChemASNFormat>

    constructor ()
      ensures mdlV3000.None? && pubChemASN.None?
    {
      mdlV3000 := None;
      pubChemASN := None;
    }

    method MDLV3000Instance() returns (f: MDLV3000Format)
      modifies this
      ensures old(mdlV3000).Some? ==> f == old(mdlV3000).value
      ensures old(mdlV3000).None? ==> fresh(f)
      ensures mdlV3000 == Some(f) && pubChemASN == old(pubChemASN)
    {
      if mdlV3000.None? {
        var created := new MDLV3000Format();
        mdlV3000 := Some(created);
      }
      f := mdlV3000.value;
    }

    method PubChemASNInstance() returns (f: PubChemASNFormat)
      modifies this
      ensures old(pubChemASN).Some? ==> f == old(pubChemASN).value
      ensures old(pubChemASN).None? ==> fresh(f)
      ensures pubChemASN == Some(f) && mdlV3000 == old(mdlV3000)
    {
      if pubChemASN.None? {
        var created := new PubChemASNFormat();
        pubChemASN := Some(created);
      }
      f := pubChemASN.value;
    }

    /** Two requests in a row yield the same object. */
    method SameInstanceTwice() returns (same: bool)
      modifies this
      ensures same
    {
      var a := MDLV3000Instance();
      var b := MDLV3000Instance();
      var c := PubChemASNInstance();
      var d := PubChemASNInstance();
      same := a == b && c == d;
    }
  }
}
