/**
 * The document list of the admin page: the `Document` record every
 * registry of the application holds, the human-readable file size the list
 * shows next to each entry, and the delete action it forwards to its owner.
 */
module DocumentList {
  import opened Text
  import Seqs

  /** A registered document; `uploadedAt` is a millisecond timestamp. */
  datatype Document = Document(id: string, name: string, size: nat, uploadedAt: int)

  /** A browser `File` as the upload widgets hand it on: its name, size and MIME type. */
  datatype UploadFile = UploadFile(name: string, size: nat, mimeType: string)

  // ----------------------------------------------- lists of documents by id

  function IdOf(d: Document): string { d.id }

  /** No two documents of the list share an id. */
  predicate UniqueIds(docs: seq<Document>) {
    Seqs.DistinctKeys(docs, IdOf)
  }

  /** `doc => doc.id !== id`. */
  function IdIsNot(id: string): Document -> bool {
    (d: Document) => d.id != id
  }

  /** `doc => doc.id === id`. */
  function HasId(id: string): Document -> bool {
    (d: Document) => d.id == id
  }

  /** `docs.filter(doc => doc.id !== id)`. */
  function Without(docs: seq<Document>, id: string): (r: seq<Document>)
    ensures forall d :: d in r <==> d in docs && d.id != id
  {
    Seqs.Filter(docs, IdIsNot(id))
  }

  /** Removing an id no document carries leaves the list as it was. */
  lemma WithoutUnknownId(docs: seq<Document>, id: string)
    requires forall i :: 0 <= i < |docs| ==> docs[i].id != id
    ensures Without(docs, id) == docs
  {
    Seqs.FilterKeepsAll(docs, IdIsNot(id));
  }

  /** Removal works part by part, so what is kept stays in its order. */
  lemma WithoutAppend(a: seq<Document>, b: seq<Document>, id: string)
    ensures Without(a + b, id) == Without(a, id) + Without(b, id)
  {
    Seqs.FilterAppend(a, b, IdIsNot(id));
  }

  /** Removal keeps ids unique. */
  lemma WithoutKeepsUnique(docs: seq<Document>, id: string)
    requires UniqueIds(docs)
    ensures UniqueIds(Without(docs, id))
  {
    Seqs.FilterKeepsDistinct(docs, IdIsNot(id), IdOf);
  }

  /** Ids pairwise distinct and carried by no document of `docs`. */
  predicate FreshIds(ids: seq<string>, docs: seq<Document>) {
    (forall i, j :: 0 <= i < j < |ids| ==> ids[i] != ids[j]) &&
    (forall i, j :: 0 <= i < |docs| && 0 <= j < |ids| ==> docs[i].id != ids[j])
  }

  /** Appending records whose ids are fresh keeps ids unique. */
  lemma AppendKeepsUnique(docs: seq<Document>, added: seq<Document>)
    requires UniqueIds(docs)
    requires FreshIds(seq(|added|, i requires 0 <= i < |added| => added[i].id), docs)
    ensures UniqueIds(docs + added)
  {
    var ids := seq(|added|, i requires 0 <= i < |added| => added[i].id);
    assert forall i :: 0 <= i < |added| ==> IdOf(added[i]) == ids[i];
    Seqs.DistinctKeysAppend(docs, added, IdOf);
  }

  const Kibi: nat := 1024
  const Mebi: nat := 1048576

  // ------------------------------------------------------------- file sizes

  datatype SizeUnit = Bytes | Kilobytes | Megabytes

  /** Which branch of `formatFileSize` a size takes. */
  function UnitOf(bytes: nat): (u: SizeUnit)
    ensures u.Bytes? <==> bytes < Kibi
    ensures u.Kilobytes? <==> Kibi <= bytes < Mebi
    ensures u.Megabytes? <==> Mebi <= bytes
  {
    if bytes < Kibi then Bytes else if bytes < Mebi then Kilobytes else Megabytes
  }

  /** The divisor of a unit. */
  function Scale(u: SizeUnit): (d: nat)
    ensures d > 0
  {
    match u
    case Bytes => 1
    case Kilobytes => Kibi
    case Megabytes => Mebi
  }

  /** The word the rendering ends with. */
  function UnitName(u: SizeUnit): string {
    match u
    case Bytes => "bytes"
    case Kilobytes => "KB"
    case Megabytes => "MB"
  }

  /** Units ordered by size. */
  function Rank(u: SizeUnit): nat {
    match u
    case Bytes => 0
    case Kilobytes => 1
    case Megabytes => 2
  }

  /** A larger size never takes a smaller unit. */
  lemma UnitMonotone(a: nat, b: nat)
    requires a <= b
    ensures Rank(UnitOf(a)) <= Rank(UnitOf(b))
  {
  }

  /**
   * `(bytes / scale).toFixed(1)` as a count of tenths: the quotient is exact
   * in binary floating point, and `toFixed` picks the nearest tenth, the
   * larger one on a tie. So `n / 10` lies within half a tenth of
   * `bytes / scale`, below by at most a half and above by less than one.
   */
  function Tenths(bytes: nat, scale: nat): (n: nat)
    requires scale > 0
    ensures 2 * scale * n <= 20 * bytes + scale < 2 * scale * n + 2 * scale
  {
    var m, d := 20 * bytes + scale, 2 * scale;
    assert m == d * (m / d) + m % d && 0 <= m % d < d;
    m / d
  }

  /** A count of tenths written with one decimal place: `15` reads `1.5`, `3` reads `0.3`. */
  function Fixed1(n: nat): (s: string)
    ensures |s| >= 3 && s[|s| - 2] == '.'
    ensures forall i :: 0 <= i < |s| && i != |s| - 2 ==> IsDigit(s[i])
  {
    NatToString(n / 10) + "." + [DigitChar(n % 10)]
  }

  /** Reading the digits of `Fixed1(n)` back, without the point, gives `n`. */
  lemma Fixed1RoundTrip(n: nat)
    ensures var s := Fixed1(n); DigitsValue(s[..|s| - 2] + s[|s| - 1..]) == n
  {
    var s := Fixed1(n);
    var whole := NatToString(n / 10);
    var digits := s[..|s| - 2] + s[|s| - 1..];
    assert s[..|s| - 2] == whole;
    assert digits == whole + [DigitChar(n % 10)];
    assert digits[..|digits| - 1] == whole;
    NatToStringRoundTrip(n / 10);
  }

  /** `formatFileSize`. */
  function FormatFileSize(bytes: nat): (r: string)
    ensures EndsWith(r, " " + UnitName(UnitOf(bytes)))
  {
    var u := UnitOf(bytes);
    var number := if u.Bytes? then NatToString(bytes) else Fixed1(Tenths(bytes, Scale(u)));
    var r := number + " " + UnitName(u);
    assert r[|r| - |" " + UnitName(u)|..] == " " + UnitName(u);
    r
  }

  /**
   * What the rendering says: a size under 1024 is its exact integer followed
   * by " bytes"; any larger size is a number with one decimal place, within
   * half a tenth of the size divided by the unit, followed by the unit.
   */
  lemma FormatFileSizeDenotes(bytes: nat)
    ensures var u := UnitOf(bytes); var r := FormatFileSize(bytes);
      (u.Bytes? ==> r == NatToString(bytes) + " bytes") &&
      (!u.Bytes? ==> exists n: nat ::
                       r == Fixed1(n) + " " + UnitName(u) &&
                       2 * Scale(u) * n <= 20 * bytes + Scale(u) < 2 * Scale(u) * n + 2 * Scale(u))
  {
    var u := UnitOf(bytes);
    if !u.Bytes? {
      var n := Tenths(bytes, Scale(u));
      assert FormatFileSize(bytes) == Fixed1(n) + " " + UnitName(u);
    }
  }

  // ----------------------------------------------------------------- delete

  /** What `handleDelete` does, in order. */
  datatype Effect = DeleteCallback(id: string) | Toast(title: string, description: string)

  predicate IsCallback(e: Effect) { e.DeleteCallback? }

  /**
   * `handleDelete(id)`: the optional `onDeleteDocument` callback is called
   * once with the id when the owner passed one, then the confirmation toast
   * is shown.
   */
  function HandleDelete(hasCallback: bool, id: string): (effects: seq<Effect>)
    ensures |Seqs.Filter(effects, IsCallback)| == (if hasCallback then 1 else 0)
    ensures forall i :: 0 <= i < |effects| && effects[i].DeleteCallback? ==> effects[i].id == id
    ensures effects != [] && effects[|effects| - 1].Toast?
  {
    var toast := Toast("Document deleted", "The document has been removed from the system.");
    var effects := (if hasCallback then [DeleteCallback(id)] else []) + [toast];
    assert Seqs.Filter([toast], IsCallback) == [];
    Seqs.FilterAppend(if hasCallback then [DeleteCallback(id)] else [], [toast], IsCallback);
    effects
  }
}
