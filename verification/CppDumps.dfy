/** What the C++ side dumps: the same bytes as Python, so Python reads the analyst's answer. */
module CppDumps {
  import opened Wrappers
  import opened Utf8
  import opened Wire
  import opened Messages
  import opened MessageRoundTrip

  ghost predicate BoardsFit(v: seq<DocIdentity>) {
    forall i :: 0 <= i < |v| ==> FitsSize(v[i].board)
  }

  function CppDumpAll(v: seq<DocIdentity>): Bytes
    requires BoardsFit(v)
  {
    if v == [] then [] else CppDumpAll(v[..|v| - 1]) + CppDumpDocIdentity(v[|v| - 1])
  }

  function CppDumpVector(v: seq<DocIdentity>): Bytes
    requires BoardsFit(v) && FitsSize(v)
  {
    Widths();
    ToLE(|v|, 8) + CppDumpAll(v)
  }

  /** The lengths C++ containers can have. */
  ghost predicate RelInfoFits(d: DocRelInfo) {
    && BoardsFit(d.posRelDocs) && BoardsFit(d.negRelDocs) && BoardsFit(d.neutralRelDocs)
    && FitsSize(d.posRelDocs) && FitsSize(d.negRelDocs) && FitsSize(d.neutralRelDocs)
  }

  function CppDumpDocRelInfo(d: DocRelInfo): Bytes
    requires RelInfoFits(d)
  {
    CppDumpVector(d.posRelDocs) + (CppDumpVector(d.negRelDocs) + CppDumpVector(d.neutralRelDocs))
  }

  /** The loop that dumps a vector. */
  method DumpVector(v: seq<DocIdentity>) returns (ret: Bytes)
    requires BoardsFit(v) && FitsSize(v)
    ensures ret == CppDumpVector(v)
  {
    hide CppDumpDocIdentity, ToLE;
    Widths();
    var size := ToLE(|v|, 8);
    ret := size;
    assert size + CppDumpAll(v[..0]) == size;
    for i := 0 to |v|
      invariant ret == size + CppDumpAll(v[..i])
    {
      assert v[..i + 1][..i] == v[..i];
      assert (size + CppDumpAll(v[..i])) + CppDumpDocIdentity(v[i]) == size + (CppDumpAll(v[..i]) + CppDumpDocIdentity(v[i]));
      ret := ret + CppDumpDocIdentity(v[i]);
    }
    assert v[..|v|] == v;
  }

  /** C++ dumps the bytes that Python packs. */
  lemma SameIdentity(d: PyDocIdentity)
    requires PyDumpDocIdentity(d).Some?
    ensures FitsSize(CppIdentityOf(d).board) && CppDumpDocIdentity(CppIdentityOf(d)) == PyDumpDocIdentity(d).value
  {
    hide ToLE, Encode, UnsignedOf;
    Widths();
  }

  lemma {:induction false} CppDumpAllSplits(v: seq<DocIdentity>, d: DocIdentity)
    requires BoardsFit(v) && FitsSize(d.board)
    ensures BoardsFit([d] + v) && CppDumpAll([d] + v) == CppDumpDocIdentity(d) + CppDumpAll(v)
    decreases |v|
  {
    hide CppDumpDocIdentity;
    if v == [] {
      assert [d] + v == [d] && [d][..0] == [];
      assert [] + CppDumpDocIdentity(d) == CppDumpDocIdentity(d) + [];
    } else {
      var init, last := v[..|v| - 1], v[|v| - 1];
      CppDumpAllSplits(init, d);
      assert ([d] + v)[..|v|] == [d] + init;
      assert (CppDumpDocIdentity(d) + CppDumpAll(init)) + CppDumpDocIdentity(last) ==
             CppDumpDocIdentity(d) + (CppDumpAll(init) + CppDumpDocIdentity(last));
    }
  }

  lemma {:induction false} SameAll(a: seq<PyDocIdentity>)
    requires PackAll(a, PyDumpDocIdentity).Some?
    ensures var v := Map(a, CppIdentityOf); BoardsFit(v) && CppDumpAll(v) == PackAll(a, PyDumpDocIdentity).value
    decreases |a|
  {
    hide CppDumpDocIdentity, PyDumpDocIdentity, CppIdentityOf;
    if a != [] {
      SameIdentity(a[0]);
      SameAll(a[1..]);
      CppDumpAllSplits(Map(a[1..], CppIdentityOf), CppIdentityOf(a[0]));
    }
  }

  lemma SameVector(a: seq<PyDocIdentity>)
    requires PackArray(a, PyDumpDocIdentity).Some?
    ensures var v := Map(a, CppIdentityOf);
            BoardsFit(v) && FitsSize(v) && CppDumpVector(v) == PackArray(a, PyDumpDocIdentity).value
  {
    hide CppDumpAll, PackAll, Map, ToLE;
    Widths();
    SameAll(a);
  }

  lemma SameRelInfo(d: PyDocRelInfo)
    requires PyDumpDocRelInfo(d).Some?
    ensures RelInfoFits(CppRelInfoOf(d)) && CppDumpDocRelInfo(CppRelInfoOf(d)) == PyDumpDocRelInfo(d).value
  {
    hide PackArray, CppDumpVector, Map;
    SameVector(d.posRelDocs);
    SameVector(d.negRelDocs);
    SameVector(d.neutralRelDocs);
  }

  /** The analyst's answer crosses from C++ to Python: Python reads the C++ dump as the answer it stands for,
    * anywhere in any buffer. */
  lemma AnswerReachesPython(d: PyDocRelInfo, buf: Bytes, off: nat)
    requires PyDumpDocRelInfo(d).Some? && RelInfoFits(CppRelInfoOf(d)) && FitsSize(buf)
    requires HasAt(buf, off, CppDumpDocRelInfo(CppRelInfoOf(d)))
    ensures PyLoadDocRelInfo(buf, off) == Some((d, off + |CppDumpDocRelInfo(CppRelInfoOf(d))|))
  {
    hide PyDumpDocRelInfo, PyLoadDocRelInfo, CppDumpDocRelInfo, CppRelInfoOf, HasAt;
    SameRelInfo(d);
    RelInfoReadsBack(d, buf, off, PyDumpDocRelInfo(d).value);
  }
}
