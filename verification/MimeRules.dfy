/** Which parts of a message are attachments and which are its texts, stated on the parts' own fields
    (src/gmail.rs). */
module MimeRules {
  import opened Results
  import opened Text
  import opened TransferDecoding
  import opened MimeWalk

  predicate MarkedAttachment(f: Fields) {
    f.disposition.Some? && EqualIgnoringCase(f.disposition.value, "attachment")
  }

  /** The name a part is offered under: the disposition's, or else the type's, if it says anything. */
  function OfferedName(f: Fields): string {
    match (f.fileName, f.typeName)
    case (Some(name), _) => if IsBlank(name) then "Unnamed attachment" else name
    case (None, Some(name)) => if IsBlank(name) then "Unnamed attachment" else name
    case (None, None) => "Unnamed attachment"
  }

  /** A part is an attachment exactly when it is marked as one, carries a name, or is no text; it keeps its path,
      encoding and size, and its media type in lower case. */
  lemma AttachmentExact(f: Fields, path: seq<nat>)
    ensures var a := AttachmentFromLeaf(f, path);
            && (a.Some? <==> MarkedAttachment(f) || f.fileName.Some? || f.typeName.Some?
                             || !EqualIgnoringCase(f.mainType, "text"))
            && (a.Some? ==>
                  && a.value.part == Part(path, f.encoding, f.octets) && a.value.octets == f.octets
                  && a.value.mainType == Lower(f.mainType) && a.value.subtype == Lower(f.subtype)
                  && a.value.name == OfferedName(f))
  {
  }

  /** A text to fetch: an unnamed text of the subtype, not marked as an attachment, in an encoding the decoder
      knows, at a path of 1 to 32 numbers from 1 on. */
  predicate Fetchable(v: Visit, subtype: string) {
    && !MarkedAttachment(v.fields) && v.fields.fileName.None? && v.fields.typeName.None?
    && EqualIgnoringCase(v.fields.mainType, "text") && EqualIgnoringCase(v.fields.subtype, subtype)
    && v.fields.encoding in [SevenBit, EightBit, Binary, Base64, QuotedPrintable]
    && 1 <= |v.path| <= 32 && forall i | 0 <= i < |v.path| :: v.path[i] >= 1
  }

  lemma TextExact(v: Visit, subtype: string)
    ensures IsText(v, subtype) <==> Fetchable(v, subtype)
  {
    AttachmentExact(v.fields, []);
    hide AttachmentFromLeaf, EqualIgnoringCase;
  }

  /** The plan's text is the first fetchable part of its subtype, with that part's path, encoding, size, charset and
      subtype in lower case; there is none only if no part is fetchable. */
  lemma {:induction false} FirstTextExact(vs: seq<Visit>, subtype: string)
    ensures FirstText(vs, subtype).None? <==> forall v <- vs :: !Fetchable(v, subtype)
    ensures FirstText(vs, subtype).Some? ==>
              exists k | 0 <= k < |vs| ::
                && Fetchable(vs[k], subtype) && (forall j | 0 <= j < k :: !Fetchable(vs[j], subtype))
                && FirstText(vs, subtype).value.part == Part(vs[k].path, vs[k].fields.encoding, vs[k].fields.octets)
                && FirstText(vs, subtype).value.subtype == Lower(vs[k].fields.subtype)
                && FirstText(vs, subtype).value.charset == vs[k].fields.charset
  {
    hide Fetchable, IsText;
    if vs != [] {
      TextExact(vs[0], subtype);
      FirstTextExact(vs[1..], subtype);
      if !Fetchable(vs[0], subtype) && FirstText(vs, subtype).Some? {
        var rest, text := vs[1..], FirstText(vs, subtype).value;
        var k :| 0 <= k < |rest| && Fetchable(rest[k], subtype)
                 && (forall j | 0 <= j < k :: !Fetchable(rest[j], subtype))
                 && text.part == Part(rest[k].path, rest[k].fields.encoding, rest[k].fields.octets)
                 && text.subtype == Lower(rest[k].fields.subtype) && text.charset == rest[k].fields.charset;
        assert vs[k + 1] == rest[k];
        assert forall j | 0 < j < k + 1 :: vs[j] == rest[j - 1];
      }
    }
  }
}
