/** Properties of the embed builder that relate several calls, mostly through the character count. */
module EmbedFacts {
  import opened Wrappers
  import DiscordState
  import opened Embeds

  /** A fresh embed counts no characters. */
  lemma InitHasNoLength(state: DiscordState.State)
    ensures EmbedInit(Some(state)).Some?
    ensures EmbedLength(EmbedInit(Some(state))) == 0
  {
  }

  /** A successful embed_add_field adds exactly its name's and value's characters to the count. */
  lemma AddFieldAddsItsText(e: Option<Embed>, name: Option<string>, value: Option<string>, displayInline: bool)
    ensures var r := AddField(e, name, value, displayInline);
            r.ok ==> EmbedLength(r.embed) == EmbedLength(e) + |name.value| + |value.value|
    ensures !AddField(e, name, value, displayInline).ok ==> EmbedLength(AddField(e, name, value, displayInline).embed) == EmbedLength(e)
  {
    var r := AddField(e, name, value, displayInline);
    if r.ok {
      FieldsLengthAppend(FieldsOf(e.value), Field(name.value, value.value, displayInline));
    }
  }

  /** Replacing the title changes the count by the difference of the two titles' lengths. */
  lemma TitleCountsOnce(e: Embed, title: string)
    ensures EmbedLength(SetText(Some(e), Title, title).embed) + |e.title| == EmbedLength(Some(e)) + |title|
  {
  }

  /** Setting an image, thumbnail, video, provider, url, timestamp or colour leaves the count unchanged. */
  lemma UncountedSettersKeepLength(e: Embed, s: Option<string>, t: Option<string>, color: int, defaultColor: int)
    ensures EmbedLength(SetImage(Some(e), s).embed) == EmbedLength(Some(e))
    ensures EmbedLength(SetThumbnail(Some(e), s).embed) == EmbedLength(Some(e))
    ensures EmbedLength(SetVideo(Some(e), s).embed) == EmbedLength(Some(e))
    ensures EmbedLength(SetProvider(Some(e), s, t).embed) == EmbedLength(Some(e))
    ensures EmbedLength(SetText(Some(e), Url, s.GetOr("")).embed) == EmbedLength(Some(e))
    ensures EmbedLength(SetText(Some(e), Timestamp, s.GetOr("")).embed) == EmbedLength(Some(e))
    ensures EmbedLength(SetColor(Some(e), color, defaultColor).embed) == EmbedLength(Some(e))
  {
  }

  /** Clearing the author takes its name out of the count; a rejected call changes nothing. */
  lemma ClearingAuthorDropsName(e: Embed)
    requires e.author.Some?
    ensures EmbedLength(SetAuthor(Some(e), None, None, None).embed) + |e.author.value.name| == EmbedLength(Some(e))
  {
  }

  /** Every builder call refuses a NULL embed and has nothing to change. */
  lemma NullEmbedRefused(s: string, o: Option<string>, p: Option<string>, q: Option<string>, color: int, defaultColor: int, inline: bool)
    ensures forall m :: SetText(None, m, s) == Setter(false, None)
    ensures SetColor(None, color, defaultColor) == Setter(false, None)
    ensures SetFooter(None, o, p) == Setter(false, None)
    ensures SetImage(None, o) == Setter(false, None)
    ensures SetThumbnail(None, o) == Setter(false, None)
    ensures SetVideo(None, o) == Setter(false, None)
    ensures SetProvider(None, o, p) == Setter(false, None)
    ensures SetAuthor(None, o, p, q) == Setter(false, None)
    ensures AddField(None, o, p, inline) == Setter(false, None)
    ensures EmbedLength(None) == 0
  {
  }

  /** The sub-record setters replace rather than merge: calling one twice with the same arguments is calling it once. */
  lemma SubRecordSettersIdempotent(e: Embed, o: Option<string>, p: Option<string>, q: Option<string>)
    ensures SetFooter(SetFooter(Some(e), o, p).embed, o, p) == SetFooter(Some(e), o, p)
    ensures SetImage(SetImage(Some(e), o).embed, o) == SetImage(Some(e), o)
    ensures SetThumbnail(SetThumbnail(Some(e), o).embed, o) == SetThumbnail(Some(e), o)
    ensures SetVideo(SetVideo(Some(e), o).embed, o) == SetVideo(Some(e), o)
    ensures SetProvider(SetProvider(Some(e), o, p).embed, o, p) == SetProvider(Some(e), o, p)
    ensures SetAuthor(Some(e), o, p, q).ok ==>
              SetAuthor(SetAuthor(Some(e), o, p, q).embed, o, p, q) == SetAuthor(Some(e), o, p, q)
  {
  }

  /** A second footer call with one argument NULL does not keep the other string of the first call. */
  lemma FooterIsNotMerged(e: Embed, text: string, iconUrl: string)
    ensures var once := SetFooter(Some(e), Some(text), Some(iconUrl)).embed;
            SetFooter(once, Some(text), None).embed.value.footer == Some(Footer(text, ""))
  {
  }

  /** Fields are kept in the order they were added. */
  lemma FieldsKeepOrder(e: Embed, a: Field, b: Field)
    ensures var one := AddField(Some(e), Some(a.name), Some(a.value), a.displayInline);
            var two := AddField(one.embed, Some(b.name), Some(b.value), b.displayInline);
            two.ok && FieldsOf(two.embed.value) == FieldsOf(e) + [a, b]
  {
  }

  /** The count of a list of fields splits over concatenation. */
  lemma {:induction false} FieldsLengthSplits(fs: seq<Field>, gs: seq<Field>)
    ensures FieldsLength(fs + gs) == FieldsLength(fs) + FieldsLength(gs)
    decreases |fs|
  {
    if |fs| == 0 {
      assert fs + gs == gs;
    } else {
      assert (fs + gs)[1..] == fs[1..] + gs;
      FieldsLengthSplits(fs[1..], gs);
    }
  }

  /**
   * As written, embed_get_length faults on a fresh embed, because the
   * description pointer is still NULL; the model's count, which reads the
   * description as "", is 0.
   */
  lemma LengthAsWrittenFaultsAfterInit(state: DiscordState.State)
    ensures EmbedInit(Some(state)).Some?
    ensures GetLengthAsWritten(EmbedInit(Some(state)), InitialDescription) == StrlenOfNull
    ensures EmbedLength(EmbedInit(Some(state))) == 0
  {
  }

  /** Once the description pointer refers to a buffer, the as-written count is the model's count. */
  lemma LengthAsWrittenAgreesWithBuffer(e: Embed)
    ensures GetLengthAsWritten(Some(e), Some(e.description)) == Counted(EmbedLength(Some(e)))
  {
    assert e.(description := e.description) == e;
  }
}
