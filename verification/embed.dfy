/**
 * The embed builder of embed.c.
 *
 * An embed is a record of text fields, a colour, six optional sub-records
 * and an optional, append-only list of fields. Every builder call takes the
 * embed (None standing for a NULL pointer) and answers with a success flag
 * and the embed it leaves. Strings are stored as given; the fixed buffer
 * sizes of embed.h are not modelled.
 */
module Embeds {
  import opened Wrappers
  import DiscordState

  datatype Footer = Footer(text: string, iconUrl: string)

  /** The shape shared by image, thumbnail and video. */
  datatype Media = Media(url: string, height: int, width: int)

  datatype Provider = Provider(name: string, url: string)

  datatype Author = Author(name: string, url: string, iconUrl: string)

  datatype Field = Field(name: string, value: string, displayInline: bool)

  datatype Embed = Embed(
    title: string,
    description: string,
    url: string,
    timestamp: string,
    color: int,
    footer: Option<Footer>,
    image: Option<Media>,
    thumbnail: Option<Media>,
    video: Option<Media>,
    provider: Option<Provider>,
    author: Option<Author>,
    fields: Option<seq<Field>>)

  /** A builder call's answer and the embed it leaves. */
  datatype Setter = Setter(ok: bool, embed: Option<Embed>)

  /** What calloc leaves: empty strings, colour 0, no sub-records, no field list. */
  const Zeroed: Embed := Embed("", "", "", "", 0, None, None, None, None, None, None, None)

  /** The fields an embed holds, an absent list counting as none. */
  function FieldsOf(e: Embed): seq<Field>
  {
    e.fields.GetOr([])
  }

  /** embed_init: NULL without a state, otherwise a zero-filled embed. */
  function EmbedInit(state: Option<DiscordState.State>): (r: Option<Embed>)
    ensures r.Some? <==> state.Some?
    ensures r.Some? ==> r.value.title == r.value.description == r.value.url == r.value.timestamp == ""
    ensures r.Some? ==> r.value.color == 0
    ensures r.Some? ==> r.value.footer.None? && r.value.image.None? && r.value.thumbnail.None?
    ensures r.Some? ==> r.value.video.None? && r.value.provider.None? && r.value.author.None?
    ensures r.Some? ==> r.value.fields.None?
  {
    if state.None? then None else Some(Zeroed)
  }

  // ---------------------------------------------------------------------------
  // Text fields and colour

  /** The four plain text members, each with its own embed_set_* call. */
  datatype TextMember = Title | Description | Url | Timestamp

  function TextOf(e: Embed, m: TextMember): string
  {
    match m
    case Title => e.title
    case Description => e.description
    case Url => e.url
    case Timestamp => e.timestamp
  }

  /**
   * embed_set_title, embed_set_description, embed_set_url and
   * embed_set_timestamp: the string is stored in the chosen member.
   */
  function SetText(e: Option<Embed>, m: TextMember, text: string): (r: Setter)
    ensures r.ok <==> e.Some?
    ensures !r.ok ==> r.embed == e
    ensures r.ok ==> r.embed.Some? && TextOf(r.embed.value, m) == text
    ensures r.ok ==> forall other :: other != m ==> TextOf(r.embed.value, other) == TextOf(e.value, other)
    // only the four text members can differ
    ensures r.ok ==> r.embed.value.(title := e.value.title, description := e.value.description,
                                    url := e.value.url, timestamp := e.value.timestamp) == e.value
  {
    if e.None? then Setter(false, e)
    else
      var v := e.value;
      var updated := match m
        case Title => v.(title := text)
        case Description => v.(description := text)
        case Url => v.(url := text)
        case Timestamp => v.(timestamp := text);
      Setter(true, Some(updated))
  }

  /**
   * embed_set_color: 0 means "use the default colour"; any other value is
   * stored as given. The default is a build-time constant the model takes
   * as a parameter.
   */
  function SetColor(e: Option<Embed>, color: int, defaultColor: int): (r: Setter)
    ensures r.ok <==> e.Some?
    ensures !r.ok ==> r.embed == e
    ensures r.ok ==> r.embed.Some? && r.embed.value.(color := e.value.color) == e.value
    ensures r.ok && color != 0 ==> r.embed.value.color == color
    ensures r.ok && color == 0 ==> r.embed.value.color == defaultColor
    // with a non-zero default the stored colour is never 0
    ensures r.ok && defaultColor != 0 ==> r.embed.value.color != 0
  {
    if e.None? then Setter(false, e)
    else Setter(true, Some(e.value.(color := if color != 0 then color else defaultColor)))
  }

  // ---------------------------------------------------------------------------
  // Sub-records

  /** The footer embed_set_footer builds: none when both strings are NULL, omitted ones left empty. */
  function FooterOf(text: Option<string>, iconUrl: Option<string>): Option<Footer>
  {
    if text.None? && iconUrl.None? then None else Some(Footer(text.GetOr(""), iconUrl.GetOr("")))
  }

  function SetFooter(e: Option<Embed>, text: Option<string>, iconUrl: Option<string>): (r: Setter)
    ensures r.ok <==> e.Some?
    ensures !r.ok ==> r.embed == e
    ensures r.ok ==> r.embed.Some? && r.embed.value.(footer := e.value.footer) == e.value
    ensures r.ok ==> (r.embed.value.footer.None? <==> text.None? && iconUrl.None?)
    ensures r.ok && r.embed.value.footer.Some? ==>
              r.embed.value.footer.value.text == text.GetOr("") && r.embed.value.footer.value.iconUrl == iconUrl.GetOr("")
  {
    if e.None? then Setter(false, e) else Setter(true, Some(e.value.(footer := FooterOf(text, iconUrl))))
  }

  /** The image, thumbnail or video a url makes: none for NULL, otherwise the url with zero dimensions. */
  function MediaOf(url: Option<string>): Option<Media>
  {
    if url.None? then None else Some(Media(url.value, 0, 0))
  }

  function SetImage(e: Option<Embed>, url: Option<string>): (r: Setter)
    ensures r.ok <==> e.Some?
    ensures !r.ok ==> r.embed == e
    ensures r.ok ==> r.embed.Some? && r.embed.value.(image := e.value.image) == e.value
    ensures r.ok ==> (r.embed.value.image.None? <==> url.None?)
    ensures r.ok && url.Some? ==> r.embed.value.image == Some(Media(url.value, 0, 0))
  {
    if e.None? then Setter(false, e) else Setter(true, Some(e.value.(image := MediaOf(url))))
  }

  function SetThumbnail(e: Option<Embed>, url: Option<string>): (r: Setter)
    ensures r.ok <==> e.Some?
    ensures !r.ok ==> r.embed == e
    ensures r.ok ==> r.embed.Some? && r.embed.value.(thumbnail := e.value.thumbnail) == e.value
    ensures r.ok ==> (r.embed.value.thumbnail.None? <==> url.None?)
    ensures r.ok && url.Some? ==> r.embed.value.thumbnail == Some(Media(url.value, 0, 0))
  {
    if e.None? then Setter(false, e) else Setter(true, Some(e.value.(thumbnail := MediaOf(url))))
  }

  function SetVideo(e: Option<Embed>, url: Option<string>): (r: Setter)
    ensures r.ok <==> e.Some?
    ensures !r.ok ==> r.embed == e
    ensures r.ok ==> r.embed.Some? && r.embed.value.(video := e.value.video) == e.value
    ensures r.ok ==> (r.embed.value.video.None? <==> url.None?)
    ensures r.ok && url.Some? ==> r.embed.value.video == Some(Media(url.value, 0, 0))
  {
    if e.None? then Setter(false, e) else Setter(true, Some(e.value.(video := MediaOf(url))))
  }

  /** The provider embed_set_provider builds: none when both strings are NULL, omitted ones left empty. */
  function ProviderOf(name: Option<string>, url: Option<string>): Option<Provider>
  {
    if name.None? && url.None? then None else Some(Provider(name.GetOr(""), url.GetOr("")))
  }

  function SetProvider(e: Option<Embed>, name: Option<string>, url: Option<string>): (r: Setter)
    ensures r.ok <==> e.Some?
    ensures !r.ok ==> r.embed == e
    ensures r.ok ==> r.embed.Some? && r.embed.value.(provider := e.value.provider) == e.value
    ensures r.ok ==> (r.embed.value.provider.None? <==> name.None? && url.None?)
    ensures r.ok && r.embed.value.provider.Some? ==>
              r.embed.value.provider.value.name == name.GetOr("") && r.embed.value.provider.value.url == url.GetOr("")
  {
    if e.None? then Setter(false, e) else Setter(true, Some(e.value.(provider := ProviderOf(name, url))))
  }

  /**
   * embed_set_author: a name is required as soon as a url or icon url is
   * given; the url, when given, is stored in place of the icon url; three
   * NULLs clear the author.
   */
  function SetAuthor(e: Option<Embed>, name: Option<string>, url: Option<string>, iconUrl: Option<string>): (r: Setter)
    ensures r.ok <==> e.Some? && (name.Some? || (url.None? && iconUrl.None?))
    ensures !r.ok ==> r.embed == e
    ensures r.ok ==> r.embed.Some? && r.embed.value.(author := e.value.author) == e.value
    ensures r.ok ==> (r.embed.value.author.None? <==> name.None?)
    ensures r.ok && name.Some? ==>
              && r.embed.value.author.value.name == name.value
              && r.embed.value.author.value.url == url.GetOr("")
              && r.embed.value.author.value.iconUrl == (if url.Some? then "" else iconUrl.GetOr(""))
  {
    if e.None? then Setter(false, e)
    else if name.Some? then
      var author := if url.Some? then Author(name.value, url.value, "") else Author(name.value, "", iconUrl.GetOr(""));
      Setter(true, Some(e.value.(author := Some(author))))
    else if url.Some? || iconUrl.Some? then Setter(false, e)
    else Setter(true, Some(e.value.(author := None)))
  }

  // ---------------------------------------------------------------------------
  // Fields

  /**
   * embed_add_field: both name and value are required; the field list is
   * created on first use and the new field goes at its end.
   */
  function AddField(e: Option<Embed>, name: Option<string>, value: Option<string>, displayInline: bool): (r: Setter)
    ensures r.ok <==> e.Some? && name.Some? && value.Some?
    ensures !r.ok ==> r.embed == e
    ensures r.ok ==> r.embed.Some? && r.embed.value.(fields := e.value.fields) == e.value
    ensures r.ok ==> r.embed.value.fields.Some?
    ensures r.ok ==> |FieldsOf(r.embed.value)| == |FieldsOf(e.value)| + 1
    ensures r.ok ==> FieldsOf(r.embed.value)[..|FieldsOf(e.value)|] == FieldsOf(e.value)
    ensures r.ok ==> FieldsOf(r.embed.value)[|FieldsOf(e.value)|] == Field(name.value, value.value, displayInline)
  {
    if e.None? || name.None? || value.None? then Setter(false, e)
    else
      var fields := FieldsOf(e.value) + [Field(name.value, value.value, displayInline)];
      Setter(true, Some(e.value.(fields := Some(fields))))
  }

  // ---------------------------------------------------------------------------
  // Length

  /** The characters of the fields' names and values. */
  function FieldsLength(fs: seq<Field>): nat
  {
    if |fs| == 0 then 0 else |fs[0].name| + |fs[0].value| + FieldsLength(fs[1..])
  }

  /**
   * The character count embed_get_length reports: title, description,
   * footer text, author name and every field's name and value. A NULL embed
   * counts 0.
   */
  function EmbedLength(e: Option<Embed>): nat
  {
    if e.None? then 0
    else
      var v := e.value;
      |v.title| + |v.description|
      + (if v.footer.Some? then |v.footer.value.text| else 0)
      + (if v.author.Some? then |v.author.value.name| else 0)
      + FieldsLength(FieldsOf(v))
  }

  lemma {:induction false} FieldsLengthAppend(fs: seq<Field>, f: Field)
    ensures FieldsLength(fs + [f]) == FieldsLength(fs) + |f.name| + |f.value|
    decreases |fs|
  {
    if |fs| == 0 {
      assert fs + [f] == [f];
      assert [f][1..] == [];
    } else {
      assert (fs + [f])[1..] == fs[1..] + [f];
      FieldsLengthAppend(fs[1..], f);
    }
  }

  /** embed_get_length as a loop over the field list, front to back. */
  method GetLength(e: Option<Embed>) returns (n: nat)
    ensures n == EmbedLength(e)
    ensures e.Some? ==> |e.value.title| + |e.value.description| <= n
  {
    if e.None? {
      return 0;
    }
    var v := e.value;
    n := |v.title| + |v.description|;
    if v.footer.Some? {
      n := n + |v.footer.value.text|;
    }
    if v.author.Some? {
      n := n + |v.author.value.name|;
    }
    var base := n;
    if v.fields.Some? {
      var fs := v.fields.value;
      var index := 0;
      while index < |fs|
        invariant 0 <= index <= |fs|
        invariant n == base + FieldsLength(fs[..index])
      {
        FieldsLengthAppend(fs[..index], fs[index]);
        assert fs[..index + 1] == fs[..index] + [fs[index]];
        n := n + |fs[index].name| + |fs[index].value|;
        index := index + 1;
      }
      assert fs[..index] == fs;
    }
  }

  // ---------------------------------------------------------------------------
  // The description pointer as written

  /**
   * What `embed->description` holds after embed_init: calloc leaves the
   * pointer NULL (None), and no call in embed.c ever points it at a buffer.
   */
  const InitialDescription: Option<string> := None

  /** What embed_get_length as written ends with: a count, or strlen called on a NULL pointer. */
  datatype LengthOutcome = Counted(n: nat) | StrlenOfNull

  /**
   * embed_get_length as written, given what the description pointer holds.
   * With the pointer NULL, the strlen of the description faults; with a
   * buffer behind it, the count is the one EmbedLength gives.
   */
  function GetLengthAsWritten(e: Option<Embed>, description: Option<string>): (r: LengthOutcome)
    ensures r == StrlenOfNull <==> e.Some? && description.None?
    ensures r.Counted? && e.Some? ==> r.n == EmbedLength(Some(e.value.(description := description.value)))
    ensures e.None? ==> r == Counted(0)
  {
    if e.None? then Counted(0)
    else if description.None? then StrlenOfNull
    else Counted(EmbedLength(Some(e.value.(description := description.value))))
  }
}
