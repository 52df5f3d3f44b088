/** Inputs with known answers, which fix the tables and limits the theorems share. */
module KnownAnswers {
  import opened Results
  import opened Text
  import opened MessageIds
  import opened TransferDecoding
  import AttachmentFetch
  import MimeWalk
  import FetchAccounting
  import FolderStore
  import BodyStore
  import RequestLanes
  import Mail
  import BackgroundSync

  /** One base64 group of the given sextets decodes to the octets of the group. */
  lemma GroupAnswer(group: seq<byte>, a: byte, b: byte, c: byte, d: byte)
    requires |group| == 4 && Solid(group) && group[0] != EQUALS && group[1] != EQUALS
    requires group[2] == EQUALS ==> group[3] == EQUALS
    requires Base64Value(group[0]) == Some(a) && Base64Value(group[1]) == Some(b)
    requires Base64Value(group[2]) == Some(c) && Base64Value(group[3]) == Some(d)
    ensures DecodeSection(Base64, group)
         == Ok(if group[2] == EQUALS then [Octet0(a, b)]
               else if group[3] == EQUALS then [Octet0(a, b), Octet1(b, c)]
               else [Octet0(a, b), Octet1(b, c), Octet2(c, d)])
  {
    FeedGroup(group);
    hide Feed, Base64Value, Octet0, Octet1, Octet2;
    var octets := DecodeGroup(group).value;
    assert octets + [] == octets;
    assert octets == if group[2] == EQUALS then [Octet0(a, b)]
                     else if group[3] == EQUALS then [Octet0(a, b), Octet1(b, c)]
                     else [Octet0(a, b), Octet1(b, c), Octet2(c, d)];
  }

  /** The test vectors of section 10 of RFC 4648 that take one group: "Zg==" is "f", "Zm8=" is "fo", "Zm9v" is
      "foo", and "YmFy" is "bar". */
  lemma Base64Vectors()
    ensures DecodeSection(Base64, [0x5A, 0x67, 0x3D, 0x3D]) == Ok([0x66])
    ensures DecodeSection(Base64, [0x5A, 0x6D, 0x38, 0x3D]) == Ok([0x66, 0x6F])
    ensures DecodeSection(Base64, [0x5A, 0x6D, 0x39, 0x76]) == Ok([0x66, 0x6F, 0x6F])
    ensures DecodeSection(Base64, [0x59, 0x6D, 0x46, 0x79]) == Ok([0x62, 0x61, 0x72])
  {
    hide DecodeSection;
    assert Octet0(25, 32) == 0x66 && Octet0(25, 38) == 0x66 && Octet1(38, 60) == 0x6F;
    assert Octet1(38, 61) == 0x6F && Octet2(61, 47) == 0x6F;
    assert Octet0(24, 38) == 0x62 && Octet1(38, 5) == 0x61 && Octet2(5, 50) == 0x72;
    hide Octet0, Octet1, Octet2;
    GroupAnswer([0x5A, 0x67, 0x3D, 0x3D], 25, 32, 0, 0);
    GroupAnswer([0x5A, 0x6D, 0x38, 0x3D], 25, 38, 60, 0);
    GroupAnswer([0x5A, 0x6D, 0x39, 0x76], 25, 38, 61, 47);
    GroupAnswer([0x59, 0x6D, 0x46, 0x79], 24, 38, 5, 50);
  }

  /** In quoted-printable "=3D" and "=3d" are '=', and "=AE" is octet 174. */
  lemma EscapeAnswers()
    ensures DecodeSection(QuotedPrintable, [0x3D, 0x33, 0x44]) == Ok([0x3D])
    ensures DecodeSection(QuotedPrintable, [0x3D, 0x33, 0x64]) == Ok([0x3D])
    ensures DecodeSection(QuotedPrintable, [0x3D, 0x41, 0x45]) == Ok([174])
  {
    hide DecodeSection;
    EscapeDecodes(0x3D, true, true);
    EscapeDecodes(0x3D, true, false);
    EscapeDecodes(0xAE, true, true);
  }

  /** Ids and body files are decimal. */
  lemma IdAnswers()
    ensures Decimal(1907) == "1907" && Gmail(1907).text == "gmail-msg:1907"
    ensures BodyFileName(Gmail(1907)) == Some("gm-1907.json")
  {
    assert Decimal(1) == "1" && Decimal(19) == "19" && Decimal(190) == "190" && Decimal(1907) == "1907";
    GmailRoundTrip(Gmail(1907), 1907);
    hide GmailValue, Decimal;
    assert "gm-" + "1907" + ".json" == "gm-1907.json";
  }

  /** Text is compared without regard to the case of ASCII letters alone, and trimmed of white space. */
  lemma Letters()
    ensures EqualIgnoringCase("Inbox", "INBOX") && !EqualIgnoringCase("Inbox", "Outbox")
    ensures !HasControl("mail \U{A0}") && HasControl("a\nb") && HasControl("\U{7F}") && HasControl("\U{9F}")
    ensures IsBlank(" \t\n") && !IsBlank(" x ")
  {
    LowerExact("Inbox");
    LowerExact("INBOX");
    LowerExact("Outbox");
    assert "a\nb"[1] in "a\nb" && " x "[1] in " x " && "\U{7F}"[0] in "\U{7F}" && "\U{9F}"[0] in "\U{9F}";
  }

  /** What a reconciliation of the body store sweeps is told by the end and the middle of a file's name. */
  lemma FileNames()
    ensures EndsWith("gm-1.json", ".json") && !EndsWith("gm-1.json.bak", ".json")
    ensures Contains("gm-1.json.tmp-7", ".tmp-") && !Contains("gm-1.json", ".tmp-")
  {
    assert "gm-1.json.tmp-7"[9..] == ".tmp-7" && ".tmp-" <= ".tmp-7";
    assert "gm-1.json"[4..] == ".json";
    assert "gm-1.json.bak"[8..][0] == 'n';
    var name := "gm-1.json";
    forall i | 0 <= i <= |name| ensures !(".tmp-" <= name[i..]) {
      assert i < |name| ==> name[i..][0] == name[i];
      assert i + 1 < |name| ==> name[i..][1] == name[i + 1];
    }
  }

  /** A read asks for a mebibyte, or what is left. */
  lemma ReadSize(total: nat, offset: nat)
    requires offset < total
    ensures AttachmentFetch.Asked(total, offset) == if offset + 1_048_576 <= total then 1_048_576 else total - offset
  {
  }

  /** The limits of the application. */
  lemma Limits()
    ensures MAX_ATTACHMENT_BYTES == 104_857_600 && AttachmentFetch.MAX_ATTACHMENT_ENCODED_BYTES == 157_286_400
    ensures AttachmentFetch.ATTACHMENT_CHUNK_BYTES == 1_048_576 && MimeWalk.MAX_ATTACHMENTS == 20
    ensures FetchAccounting.MAX_SEARCH_RESULTS == 500 && FolderStore.MAX_SUMMARIES_PER_FOLDER == 500
    ensures FolderStore.MAX_CACHED_FOLDER_VIEWS == 8 && Mail.MAX_MESSAGE_LABELS == 256
    ensures Mail.MAX_FOLDER_CATALOG_ENTRIES == 256 && Mail.MAX_FOLDER_MAILBOX_BYTES == 1024
    ensures BodyStore.MAX_CACHE_JSON_BYTES == 134_217_728 && BodyStore.MANIFEST_NAME == "manifest.json"
    ensures RequestLanes.MAX_SEARCH_QUERY_BYTES == 2048
    ensures BackgroundSync.FLOOR == 60 && BackgroundSync.CAP == 900 && BackgroundSync.MAX_EMITTED_IDS == 500
    ensures forall limit :: FolderStore.ValidLimit(limit) <==> limit in [50, 100, 250, 500]
  {
  }
}
