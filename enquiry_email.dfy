/** The enquiry e-mail sent to the administrator: its addressing, its subject
    line and its HTML body, rendered from an item and the enquiry date, and
    the hand-over to the mail transport. */
module EnquiryEmail {
  import opened Wrappers
  import opened Text
  import opened Inventory

  /** The two settings read from the environment. */
  datatype MailEnv = MailEnv(emailUser: string, adminEmail: string)

  datatype MailOptions = MailOptions(from: string, to: string, subject: string, html: string)

  /** What the transport reports for one message. */
  datatype SendResult = Sent | SendFailed(error: string)

  const SubjectPrefix: string := "Enquiry for Item: "

  function Subject(name: string): (subject: string) {
    SubjectPrefix + name
  }

  /** The item name read back from a subject line. */
  function SubjectName(subject: string): (name: Option<string>) {
    if IsPrefix(SubjectPrefix, subject) then Some(subject[|SubjectPrefix|..]) else None
  }

  // ---------------------------------------------------------------------
  // the fragments of the body template, in order
  // ---------------------------------------------------------------------

  const Opening: string :=
    "\n      <h2>New Item Enquiry</h2>\n      <div style=\"border: 1px solid #ddd; padding: 20px; border-radius: 8px; max-width: 600px;\">\n        <h3>Item Details:</h3>\n        "
  const LineBreak: string := "\n        "
  const CoverHeading: string := "\n        \n        <h4>Cover Image:</h4>\n        "
  const BeforeSection: string := "\n        \n        "
  const Closing: string :=
    "\n      </div>\n      \n      <p style=\"margin-top: 20px; color: #666;\">\n        This enquiry was generated automatically from the Item Management System.\n      </p>\n    "

  const AdditionalHeading: string :=
    "\n          <h4>Additional Images:</h4>\n          <div style=\"display: flex; flex-wrap: wrap; gap: 10px;\">\n            "
  const AdditionalClosing: string := "\n          </div>\n        "

  function NameLine(name: string): (line: string) {
    "<p><strong>Name:</strong> " + name + "</p>"
  }

  function TypeLine(itemType: string): (line: string) {
    "<p><strong>Type:</strong> " + itemType + "</p>"
  }

  function DescriptionLine(description: string): (line: string) {
    "<p><strong>Description:</strong> " + description + "</p>"
  }

  function DateLine(date: string): (line: string) {
    "<p><strong>Enquiry Date:</strong> " + date + "</p>"
  }

  function CoverTag(url: string, name: string): (tag: string) {
    "<img src=\"" + url + "\" alt=\"" + name + "\" style=\"max-width: 300px; height: auto; border-radius: 4px;\">"
  }

  /** One additional image, with the blank space the template puts around it. */
  function ImageTag(url: string, name: string): (tag: string) {
    "\n              <img src=\"" + url + "\" alt=\"" + name + "\" style=\"width: 150px; height: 150px; object-fit: cover; border-radius: 4px;\">\n            "
  }

  /** `images.map(...)`: one tag per URL, in list order. */
  function TagList(images: seq<string>, name: string): (tags: seq<string>)
    ensures |tags| == |images|
    ensures forall k :: 0 <= k < |images| ==> tags[k] == ImageTag(images[k], name)
  {
    if images == [] then [] else [ImageTag(images[0], name)] + TagList(images[1..], name)
  }

  /** `images.map(...).join('')`. */
  function ImageTags(images: seq<string>, name: string): (tags: string) {
    Join(TagList(images, name))
  }

  /** The "Additional Images" block, or nothing when the item has none. */
  function AdditionalImagesSection(images: seq<string>, name: string): (section: string) {
    if |images| > 0 then AdditionalHeading + ImageTags(images, name) + AdditionalClosing else ""
  }

  /** The fragments of the body; every item field is placed as it is, with no
      escaping. */
  function BodyPieces(item: Item, date: string): (pieces: seq<string>) {
    [Opening, NameLine(item.name), LineBreak, TypeLine(item.itemType), LineBreak,
     DescriptionLine(item.description), LineBreak, DateLine(date), CoverHeading,
     CoverTag(item.coverImage, item.name), BeforeSection,
     AdditionalImagesSection(item.images, item.name), Closing]
  }

  function Html(item: Item, date: string): (html: string) {
    Join(BodyPieces(item, date))
  }

  /** The mail options built for an enquiry; `date` is the rendered
      `toLocaleString()` of the moment of the enquiry. */
  function EnquiryMail(env: MailEnv, item: Item, date: string): (mail: MailOptions) {
    MailOptions(env.emailUser, env.adminEmail, Subject(item.name), Html(item, date))
  }

  /** Builds the options and hands them to the transport, whose report is a
      parameter; a failure is passed on to the caller unchanged. The first
      component is the message given to the transport. */
  function SendEnquiryEmail(env: MailEnv, item: Item, date: string, transport: SendResult): (r: (MailOptions, Result<(), string>))
    ensures r.0 == EnquiryMail(env, item, date)
    ensures r.1.Ok? <==> transport == Sent
    ensures r.1.Err? ==> transport == SendFailed(r.1.error)
  {
    var mail := EnquiryMail(env, item, date);
    match transport
    case Sent => (mail, Ok(()))
    case SendFailed(e) => (mail, Err(e))
  }

  // ---------------------------------------------------------------------
  // properties
  // ---------------------------------------------------------------------

  /** The subject names the item, and the name can be read back from it. */
  lemma SubjectRoundTrip(name: string)
    ensures IsPrefix(SubjectPrefix, Subject(name))
    ensures SubjectName(Subject(name)) == Some(name)
  {
    assert Subject(name)[..|SubjectPrefix|] == SubjectPrefix;
    assert Subject(name)[|SubjectPrefix|..] == name;
  }

  /** The message goes from the configured sender to the administrator alone,
      under a subject that carries the item's name. */
  lemma MailAddressing(env: MailEnv, item: Item, date: string)
    ensures EnquiryMail(env, item, date).from == env.emailUser
    ensures EnquiryMail(env, item, date).to == env.adminEmail
    ensures SubjectName(EnquiryMail(env, item, date).subject) == Some(item.name)
  {
    SubjectRoundTrip(item.name);
  }

  /** Every fragment of the template is in the body. */
  lemma PieceShown(item: Item, date: string, k: nat)
    requires k < 13
    ensures Contains(Html(item, date), BodyPieces(item, date)[k])
  {
    JoinContains(BodyPieces(item, date), k);
  }

  lemma NamePiece(item: Item, date: string)
    ensures BodyPieces(item, date)[1] == NameLine(item.name)
  {
  }

  lemma NameShown(item: Item, date: string)
    ensures Contains(Html(item, date), NameLine(item.name))
  {
    PieceShown(item, date, 1);
    NamePiece(item, date);
  }

  lemma TypePiece(item: Item, date: string)
    ensures BodyPieces(item, date)[3] == TypeLine(item.itemType)
  {
  }

  lemma TypeShown(item: Item, date: string)
    ensures Contains(Html(item, date), TypeLine(item.itemType))
  {
    PieceShown(item, date, 3);
    TypePiece(item, date);
  }

  lemma DescriptionPiece(item: Item, date: string)
    ensures BodyPieces(item, date)[5] == DescriptionLine(item.description)
  {
  }

  lemma DescriptionShown(item: Item, date: string)
    ensures Contains(Html(item, date), DescriptionLine(item.description))
  {
    PieceShown(item, date, 5);
    DescriptionPiece(item, date);
  }

  lemma DatePiece(item: Item, date: string)
    ensures BodyPieces(item, date)[7] == DateLine(date)
  {
  }

  lemma DateShown(item: Item, date: string)
    ensures Contains(Html(item, date), DateLine(date))
  {
    PieceShown(item, date, 7);
    DatePiece(item, date);
  }

  lemma CoverPiece(item: Item, date: string)
    ensures BodyPieces(item, date)[9] == CoverTag(item.coverImage, item.name)
  {
  }

  lemma CoverShown(item: Item, date: string)
    ensures Contains(Html(item, date), CoverTag(item.coverImage, item.name))
  {
    PieceShown(item, date, 9);
    CoverPiece(item, date);
  }

  lemma SectionPiece(item: Item, date: string)
    ensures BodyPieces(item, date)[11] == AdditionalImagesSection(item.images, item.name)
  {
  }

  lemma SectionShown(item: Item, date: string)
    ensures Contains(Html(item, date), AdditionalImagesSection(item.images, item.name))
  {
    PieceShown(item, date, 11);
    SectionPiece(item, date);
  }

  /** The body shows the name, type, description and date lines and the cover
      image, each with the field exactly as stored. */
  lemma DetailsShownVerbatim(item: Item, date: string)
    ensures Contains(Html(item, date), NameLine(item.name))
    ensures Contains(Html(item, date), TypeLine(item.itemType))
    ensures Contains(Html(item, date), DescriptionLine(item.description))
    ensures Contains(Html(item, date), DateLine(date))
    ensures Contains(Html(item, date), CoverTag(item.coverImage, item.name))
  {
    NameShown(item, date);
    TypeShown(item, date);
    DescriptionShown(item, date);
    DateShown(item, date);
    CoverShown(item, date);
  }

  /** A non-empty list of additional images opens its block with the heading. */
  lemma HeadingInSection(images: seq<string>, name: string)
    requires images != []
    ensures Contains(AdditionalImagesSection(images, name), AdditionalHeading)
  {
    var front := AdditionalHeading + ImageTags(images, name);
    ContainsPrefix(front, AdditionalClosing);
    ContainsPrefix(AdditionalHeading, ImageTags(images, name));
    ContainsTrans(AdditionalImagesSection(images, name), front, AdditionalHeading);
  }

  /** The block holds the tag of every URL. */
  lemma TagInSection(images: seq<string>, name: string, k: nat)
    requires k < |images|
    ensures Contains(AdditionalImagesSection(images, name), ImageTag(images[k], name))
  {
    var tags := ImageTags(images, name);
    JoinContains(TagList(images, name), k);
    ContainsInfix(AdditionalHeading, tags, AdditionalClosing);
    ContainsTrans(AdditionalImagesSection(images, name), tags, ImageTag(images[k], name));
  }

  /** The additional-images block is empty exactly when the item has no
      additional images; otherwise it is in the body, one tag per URL. */
  lemma SectionPresentIffImages(item: Item, date: string)
    ensures AdditionalImagesSection(item.images, item.name) == "" <==> item.images == []
    ensures item.images != [] ==> Contains(Html(item, date), AdditionalHeading)
    ensures forall k :: 0 <= k < |item.images| ==>
      Contains(Html(item, date), ImageTag(item.images[k], item.name))
  {
    var section := AdditionalImagesSection(item.images, item.name);
    if item.images != [] {
      assert |section| >= |AdditionalHeading| > 0;
      SectionShown(item, date);
      HeadingInSection(item.images, item.name);
      ContainsTrans(Html(item, date), section, AdditionalHeading);
      forall k | 0 <= k < |item.images|
        ensures Contains(Html(item, date), ImageTag(item.images[k], item.name))
      {
        TagInSection(item.images, item.name, k);
        ContainsTrans(Html(item, date), section, ImageTag(item.images[k], item.name));
      }
    }
  }

  /** The tags keep the order of the URLs: tag `k` comes after the tags of the
      URLs before it and before the tags of the URLs after it. */
  lemma ImageTagsInOrder(images: seq<string>, name: string, k: nat)
    requires k < |images|
    ensures ImageTags(images, name) ==
      ImageTags(images[..k], name) + ImageTag(images[k], name) + ImageTags(images[k + 1..], name)
  {
    var list := TagList(images, name);
    JoinSplit(list, k);
    assert list[..k] == TagList(images[..k], name);
    assert list[k + 1..] == TagList(images[k + 1..], name);
  }

  /** Adding an image to the item adds exactly its tag at the end. */
  lemma ImageTagsAppend(images: seq<string>, url: string, name: string)
    ensures ImageTags(images + [url], name) == ImageTags(images, name) + ImageTag(url, name)
  {
    var list := TagList(images + [url], name);
    assert list == TagList(images, name) + [ImageTag(url, name)];
    JoinAppend(TagList(images, name), [ImageTag(url, name)]);
    assert Join([ImageTag(url, name)]) == ImageTag(url, name) + Join([]);
  }

  /** Fields are not escaped: a description that is itself markup appears in
      the body as markup, so an item without additional images can still
      show an "Additional Images" heading. */
  lemma FieldsAreNotEscaped(item: Item, date: string)
    requires item.description == AdditionalHeading && item.images == []
    ensures AdditionalImagesSection(item.images, item.name) == ""
    ensures Contains(Html(item, date), AdditionalHeading)
  {
    DescriptionShown(item, date);
    var d := DescriptionLine(item.description);
    ContainsInfix("<p><strong>Description:</strong> ", item.description, "</p>");
    ContainsTrans(Html(item, date), d, AdditionalHeading);
  }

  /** A transport failure reaches the caller with its own error; a delivered
      message reports success. Either way the transport was given the
      rendered enquiry. */
  lemma SendRethrows(env: MailEnv, item: Item, date: string, e: string)
    ensures SendEnquiryEmail(env, item, date, SendFailed(e)).1 == Err(e)
    ensures SendEnquiryEmail(env, item, date, Sent).1 == Ok(())
    ensures SendEnquiryEmail(env, item, date, SendFailed(e)).0 == SendEnquiryEmail(env, item, date, Sent).0
  {
  }
}
