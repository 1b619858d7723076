/** Per-field character sets of an inbound email: the `charsets` declarations,
    the lookup of one field's encoding, and the distinct encodings that need a
    parse pass of their own (WebhookParser.cs). */
module Charsets {
  import opened Wrappers

  /** A System.Text.Encoding, identified by its code page. */
  datatype Encoding = Encoding(codePage: nat)

  /** Encoding.UTF8 (code page 65001). */
  const UTF8 := Encoding(65001)

  /** One resolved declaration: KeyValuePair<string, Encoding>. */
  type Charset = (string, Encoding)

  /** The charset entries declared for `parameterName`, in their original order. */
  function Where(charsets: seq<Charset>, parameterName: string): (r: seq<Charset>)
    ensures forall c :: c in r ==> c in charsets && c.0 == parameterName
    ensures |r| == 0 <==> forall i :: 0 <= i < |charsets| ==> charsets[i].0 != parameterName
  {
    if charsets == [] then []
    else
      var rest := Where(charsets[1..], parameterName);
      assert forall i :: 1 <= i < |charsets| ==> charsets[i] == charsets[1..][i - 1];
      if charsets[0].0 == parameterName then [charsets[0]] + rest else rest
  }

  /** WebhookParser.GetEncoding: the encoding declared for the field, UTF-8 when
      none is. The result is always one that is declared, or UTF-8. */
  function GetEncoding(parameterName: string, charsets: seq<Charset>): (e: Encoding)
    ensures e == UTF8 || exists i :: 0 <= i < |charsets| && charsets[i] == (parameterName, e)
  {
    var encoding := Where(charsets, parameterName);
    if |encoding| > 0 then
      assert encoding[0] in encoding;
      encoding[0].1
    else UTF8
  }

  /** The first declaration for a field wins, whatever follows it. */
  lemma {:induction false} GetEncodingFirstMatch(parameterName: string, charsets: seq<Charset>, i: nat)
    requires i < |charsets| && charsets[i].0 == parameterName
    requires forall j :: 0 <= j < i ==> charsets[j].0 != parameterName
    ensures GetEncoding(parameterName, charsets) == charsets[i].1
  {
    if i > 0 {
      forall j | 0 <= j < i - 1 ensures charsets[1..][j].0 != parameterName {
        assert charsets[1..][j] == charsets[j + 1];
      }
      GetEncodingFirstMatch(parameterName, charsets[1..], i - 1);
      assert Where(charsets, parameterName) == Where(charsets[1..], parameterName);
    }
  }

  /** A field nobody declared is read as UTF-8. */
  lemma GetEncodingDefault(parameterName: string, charsets: seq<Charset>)
    requires forall j :: 0 <= j < |charsets| ==> charsets[j].0 != parameterName
    ensures GetEncoding(parameterName, charsets) == UTF8
  {
  }

  /** The charsets JSON properties resolved one by one with
      Encoding.GetEncoding (`getEncoding`), in property order; the first name it
      does not know raises, and that name is the error. */
  function ResolveCharsets(properties: seq<(string, string)>, getEncoding: string -> Option<Encoding>)
    : (r: Result<seq<Charset>, string>)
    ensures r.Success? <==> forall i :: 0 <= i < |properties| ==> getEncoding(properties[i].1).Some?
    ensures r.Success? ==> |r.value| == |properties|
    ensures r.Success? ==> forall i :: 0 <= i < |properties| ==>
      r.value[i].0 == properties[i].0 && Some(r.value[i].1) == getEncoding(properties[i].1)
    ensures r.Failure? ==>
              exists i :: (0 <= i < |properties| && getEncoding(properties[i].1).None? && r.error == properties[i].1
                           && forall j :: 0 <= j < i ==> getEncoding(properties[j].1).Some?)
  {
    if properties == [] then Success([])
    else
      match getEncoding(properties[0].1)
      case None => Failure(properties[0].1)
      case Some(e) =>
        match ResolveCharsets(properties[1..], getEncoding)
        case Failure(name) =>
          assert forall j :: 1 <= j < |properties| ==> properties[j] == properties[1..][j - 1];
          Failure(name)
        case Success(rest) =>
          assert forall i :: 1 <= i < |properties| ==> properties[i] == properties[1..][i - 1];
          Success([(properties[0].0, e)] + rest)
  }

  /** The encoding of every charset entry that is not UTF-8, in entry order and
      with repeats kept. */
  function NonUtf8Encodings(charsets: seq<Charset>): (r: seq<Encoding>)
    ensures forall e :: e in r <==> e != UTF8 && exists i :: 0 <= i < |charsets| && charsets[i].1 == e
  {
    if charsets == [] then []
    else
      var rest := NonUtf8Encodings(charsets[1..]);
      assert forall i :: 1 <= i < |charsets| ==> charsets[i] == charsets[1..][i - 1];
      assert forall i :: 0 <= i < |charsets| - 1 ==> charsets[1..][i] == charsets[i + 1];
      if charsets[0].1 != UTF8 then [charsets[0].1] + rest else rest
  }

  /** Enumerable.Distinct: each element once, at its first occurrence. */
  function Distinct(xs: seq<Encoding>): (r: seq<Encoding>)
    ensures forall e :: e in r <==> e in xs
    ensures forall i, j :: 0 <= i < j < |r| ==> r[i] != r[j]
  {
    if xs == [] then []
    else
      var init := xs[..|xs| - 1];
      var last := xs[|xs| - 1];
      assert xs == init + [last];
      var d := Distinct(init);
      if last in d then d else d + [last]
  }

  /** The encodings that get a parse pass of their own: every declared encoding
      other than UTF-8, each exactly once. */
  function ReparseEncodings(charsets: seq<Charset>): (r: seq<Encoding>)
    ensures UTF8 !in r
    ensures forall i, j :: 0 <= i < j < |r| ==> r[i] != r[j]
    ensures forall i :: 0 <= i < |charsets| && charsets[i].1 != UTF8 ==> charsets[i].1 in r
    ensures forall e :: e in r ==> exists i :: 0 <= i < |charsets| && charsets[i].1 == e
  {
    Distinct(NonUtf8Encodings(charsets))
  }
}
