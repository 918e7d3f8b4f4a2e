# ItemManager — a verified model of its core

ItemManager is a small inventory application. The Express backend accepts a
multipart form with an item's name, type and description, one cover image
and up to ten additional images. It stages the files under `uploads/` with
multer, sends them to an image host, removes the staged files and inserts
the item into the database. It also serves one item by id and mails an
enquiry about an item to the administrator. The React frontend lists the
items with a search box and a type filter, shows one item with an image
carousel, and offers a form that builds the multipart submission.

This project models the logic inside those pieces and proves what it
promises:

- `upload_rules.dfy` (module `UploadRules`): multer's acceptance rules.
  - Node's `path.extname`.
  - The image-type filter, an unanchored `/jpeg|jpg|png|gif|webp/` test on
    the lower-cased extension and on the declared media type.
  - The staged file name `fieldname-<time>-<random><ext>`.
  - The 5 MiB size limit and the per-field counts (one `coverImage`, ten
    `images`).
  - The order in which a submission's parts are accepted and staged.
- `items_route.dfy` (module `ItemsRoute`): the item routes.
  - The creation handler is a class whose fields are the staging
    directory, the log of upload requests and the item table. Its methods
    are proved equal to a step-by-step specification function, and the
    lemmas state what the handler promises about that function.
  - GET `/:id` and POST `/:id/enquire` are functions of the table.
- `enquiry_email.dfy` (module `EnquiryEmail`): the enquiry e-mail.
  - Its addressing and subject.
  - Its HTML body, fragment by fragment, exactly as the template writes it.
  - The hand-over to the mail transport.
- `view_items.dfy` (module `ViewItems`): the list page.
  - The search and type filter.
  - The type options.
  - The count and empty-state labels.
- `item_detail.dfy` (module `ItemDetail`): the detail page.
  - The carousel's image list and its index arithmetic.
  - The page state as a class: index, loaded item, enquiry button.
- `add_item.dfy` (module `AddItem`): the add-item form.
  - The form's state cells as a class whose handlers replace them.
  - The FormData payload it submits.
- `text.dfy`, `inventory.dfy`, `wrappers.dfy`: shared definitions.
  - ASCII lower-casing, substring search, `join`, decimal digits.
  - The item record.
  - `Option` and `Result`.

The collaborators are parameters:

- The image host is a map from the staged paths it takes to the URL it
  answers.
- The database is a map from id to item, plus a flag for an insert or a
  lookup that fails. The id the database assigns is a parameter.
- The mail transport's report is a parameter.
- `Date.now()`, `Math.random()` and `toLocaleString()` are parameters.
- The environment variables `EMAIL_USER` and `ADMIN_EMAIL` are a record
  passed in.

Two behaviours of the code are worth stating plainly, because the model
follows them exactly:

- **Cleanup of staged files.** The code calls `unlinkSync` only after every
  upload succeeded, and before the insert. A 400 from validation, or a
  failed upload, leaves the staged files on disk. A removal that throws
  makes the whole request a 500. `CleanupOnlyAfterUploads`,
  `StagedFilesLeftOnBadRequest` and `CreatedIff` state this behaviour.
- **Refused files.** A file that multer refuses is passed on as an error
  to the next error handler. The app's entry file is not part of this
  model. Assuming the app installs no error middleware of its own,
  Express's default handler answers 500. The model answers that case
  with a 500 (`UploadRejected`) and leaves the state unchanged.

## Model

| member | source | states |
|---|---|---|
| UploadRules.ExtNameShape | backend/src/routes/items.ts:23 | `path.extname` yields either "" or a dot followed by characters that are neither dots nor separators |
| UploadRules.ExtNameOfJoinedPath | backend/src/routes/items.ts:23 | for a directory ending in "/", a stem without "/" and a well-formed extension, the extension of `dir + stem + ext` is exactly `ext` (the inverse of appending an extension) |
| UploadRules.ComponentExtOf | backend/src/routes/items.ts:23 | the extension of one path component `stem + ext` is `ext`, and "" when the stem has no dot and there is no extension |
| UploadRules.BareNameExt | backend/src/routes/items.ts:23 | a bare file name `stem + ext` has extension `ext` |
| UploadRules.ExtNameLower | backend/src/routes/items.ts:34 | lower-casing the file name and then taking its extension equals taking the extension and then lower-casing it |
| UploadRules.FileFilter | backend/src/routes/items.ts:32-42 | every refusal carries the message "Only image files are allowed" |
| UploadRules.FileFilterIgnoresNameCase | backend/src/routes/items.ts:34 | two file names that differ only in ASCII letter case get the same verdict for the same media type |
| UploadRules.AcceptedHasExtension | backend/src/routes/items.ts:33-37 | an accepted file's extension has at least four characters, so a name without an extension is never accepted |
| UploadRules.MimetypeIsCaseSensitive | backend/src/routes/items.ts:35-40 | the media type is not lower-cased: "photo.jpg" declared as "IMAGE/JPEG" is refused |
| UploadRules.FilterIsSubstringSearch | backend/src/routes/items.ts:33-38 | the test is unanchored: "notes.pngtxt" declared as "text/x-gif-notes" is accepted |
| UploadRules.PngTxtExtension | backend/src/routes/items.ts:34 | the extension of "notes.pngtxt" is ".pngtxt" |
| UploadRules.StagedPathKeepsExtension | backend/src/routes/items.ts:21-24 | the staged name starts with the field name and "-", and the extension of the staged path is the client file's extension |
| UploadRules.IntakeIff | backend/src/routes/items.ts:27-43 | a submission is accepted exactly when every part is a `coverImage` or `images` file that passes the filter and the 5 MiB limit, with at most one cover and ten images; the accepted groups are then each field's parts, staged, in arrival order |
| UploadRules.IntakeFromOk | backend/src/routes/items.ts:80-83 | the same acceptance condition, for an intake that has already filled part of its groups |
| UploadRules.IntakeFromValue | backend/src/routes/items.ts:80-83 | an accepted intake appends each field's staged parts, in arrival order, to the groups already filled |
| UploadRules.IntakeBounds | backend/src/routes/items.ts:29-31 | accepted groups hold at most one cover and ten images, and every accepted file passed the filter and is at most 5 MiB |
| UploadRules.SelectFrom | backend/src/routes/items.ts:80-83 | every part selected for a field comes from the submission and was sent under that field |
| ItemsRoute.ItemsRouter.CreateItem | backend/src/routes/items.ts:84-129 | the response and the new directory, upload log and table equal the step-by-step creation function |
| ItemsRoute.ItemsRouter.Post | backend/src/routes/items.ts:80-129 | the response and the new state equal multer's intake followed by the creation handler |
| ItemsRoute.UnlinkAllSpec | backend/src/routes/items.ts:108-112 | removing the staged files succeeds exactly when every path is on disk and none is listed twice, and then removes exactly those paths; it never adds a file |
| ItemsRoute.MissingFieldIsRefusedFirst | backend/src/routes/items.ts:88-90 | a missing or empty name, type or description gives 400 "Name, type, and description are required", whatever the files; nothing is uploaded, removed or inserted |
| ItemsRoute.MissingCoverIsRefused | backend/src/routes/items.ts:92-94 | with the fields present and no cover the answer is 400 "Cover image is required" and the state is unchanged |
| ItemsRoute.PathsAppend | backend/src/routes/items.ts:96-106 | the paths sent to the image host for two lists of files, one after the other, are the first list's paths followed by the second's |
| ItemsRoute.CoverUploadedFirst | backend/src/routes/items.ts:96-106 | the cover's path is sent to the image host first; the additional paths follow, in order, only if the cover was taken |
| ItemsRoute.CreatedIff | backend/src/routes/items.ts:84-129 | an item is created exactly when the fields and the cover are present, every upload is taken, every staged file can be removed and the insert succeeds |
| ItemsRoute.CreatedRecord | backend/src/routes/items.ts:114-125 | a created item has the submitted fields, the cover's URL and the additional URLs in submission order; it is the one new row, the answer is 201 "Item successfully added", and the staged files are gone |
| ItemsRoute.FailureInsertsNothing | backend/src/routes/items.ts:126-129 | every other answer leaves the table unchanged, and is one of the two 400s or 500 "Failed to create item" |
| ItemsRoute.CleanupOnlyAfterUploads | backend/src/routes/items.ts:108-112 | the handler never adds files, and removes one only when the fields and cover were present and every upload was taken; once every upload was taken the staged files are removed before the insert, so the directory is the same whatever the insert's outcome |
| ItemsRoute.StagedFilesLeftOnBadRequest | backend/src/routes/items.ts:80-94 | a refused intake changes nothing; a 400 after an accepted intake leaves every staged file on disk |
| ItemsRoute.GetItemSpec | backend/src/routes/items.ts:61-77 | GET `/:id` answers 404 exactly for an unknown id and the stored item otherwise; a failing database gives 500 |
| ItemsRoute.EnquireUnknownSendsNothing | backend/src/routes/items.ts:133-142 | an enquiry about an unknown id answers 404 "Item not found" and hands nothing to the transport |
| ItemsRoute.EnquireSendsTheEnquiry | backend/src/routes/items.ts:143-149 | for a stored item exactly one message, the rendered enquiry, goes to the transport; the answer is 200 exactly when it was delivered and 500 "Failed to send enquiry" otherwise |
| ItemsRoute.UrlsAppend | backend/src/routes/items.ts:103-105 | the URL list follows the request order: one more uploaded path adds its URL at the end and keeps the earlier URLs |
| EnquiryEmail.SendEnquiryEmail | backend/src/utils/email.ts:16-55 | the transport receives the rendered enquiry; the call succeeds exactly when the transport does, and a failure comes back with the transport's own error |
| EnquiryEmail.SendRethrows | backend/src/utils/email.ts:49-55 | a transport failure is passed on unchanged and a delivery reports success, with the same message either way |
| EnquiryEmail.SubjectRoundTrip | backend/src/utils/email.ts:20 | the subject is "Enquiry for Item: " followed by the name, and the name can be read back from it |
| EnquiryEmail.MailAddressing | backend/src/utils/email.ts:17-20 | the sender is `EMAIL_USER`, the single recipient is `ADMIN_EMAIL`, and the subject carries the item's name |
| EnquiryEmail.PieceShown | backend/src/utils/email.ts:21-46 | every fragment of the template occurs in the body |
| EnquiryEmail.DetailsShownVerbatim | backend/src/utils/email.ts:25-31 | the body holds the name, type, description and date lines and the cover `img` tag, with each field exactly as stored |
| EnquiryEmail.SectionPresentIffImages | backend/src/utils/email.ts:33-40 | the additional-images block is empty exactly when the item has no additional images; otherwise the body holds its heading and the tag of every URL |
| EnquiryEmail.TagList | backend/src/utils/email.ts:36-38 | one tag per URL, position for position |
| EnquiryEmail.ImageTagsInOrder | backend/src/utils/email.ts:36-38 | tag k comes after the tags of the URLs before it and before those after it |
| EnquiryEmail.ImageTagsAppend | backend/src/utils/email.ts:36-38 | adding a URL at the end adds exactly its tag at the end |
| EnquiryEmail.HeadingInSection | backend/src/utils/email.ts:33-35 | a non-empty block opens with the "Additional Images" heading |
| EnquiryEmail.TagInSection | backend/src/utils/email.ts:36-38 | the block holds the tag of every URL |
| EnquiryEmail.FieldsAreNotEscaped | backend/src/utils/email.ts:25-40 | fields are not escaped: a description that is itself the heading markup puts an "Additional Images" heading into the body of an item without additional images |
| ViewItems.FilterItems | frontend/src/pages/ViewItems.tsx:44-49 | the shown list is never longer than the loaded one |
| ViewItems.FilterIsSubsequence | frontend/src/pages/ViewItems.tsx:44-49 | the shown list is the loaded list with some items left out, in the same order |
| ViewItems.FilterCounts | frontend/src/pages/ViewItems.tsx:44-49 | a matching item is shown as often as it is loaded, and any other item not at all |
| ViewItems.FilterMembership | frontend/src/pages/ViewItems.tsx:45-48 | an item is shown exactly when it is loaded, its lower-cased name or description contains the lower-cased term, and its type matches |
| ViewItems.FilterIdempotent | frontend/src/pages/ViewItems.tsx:44-49 | filtering the shown list again with the same criteria changes nothing |
| ViewItems.EmptyTermMatches | frontend/src/pages/ViewItems.tsx:45-46 | an empty term matches every item |
| ViewItems.NoCriteriaShowsAll | frontend/src/pages/ViewItems.tsx:45-47 | with no term and no type, or "All", every loaded item is shown |
| Text.ToLowerAppend | frontend/src/pages/ViewItems.tsx:45-46 | lower-casing works character by character: lower-casing a concatenation is the concatenation of the lower-cased parts |
| ViewItems.SearchIgnoresCase | frontend/src/pages/ViewItems.tsx:45-46 | terms that differ only in ASCII letter case show the same items |
| ViewItems.AllIsNoType | frontend/src/pages/ViewItems.tsx:47 | "All" shows the same items as no type |
| ViewItems.TypeIsMatchedExactly | frontend/src/pages/ViewItems.tsx:47 | with a real type every shown item has exactly that type, and every loaded item of that type matching the term is shown |
| ViewItems.OptionValues | frontend/src/pages/ViewItems.tsx:99-103 | the "All" option selects no type and every other option selects its own label |
| ViewItems.CountLabelCases | frontend/src/pages/ViewItems.tsx:62 | the label is "<n> item in your inventory" exactly when one item is loaded, which reads "1 item in your inventory", and "<n> items in your inventory" for any other count |
| ViewItems.EmptyHeadingCases | frontend/src/pages/ViewItems.tsx:111-122 | "No items yet" exactly when nothing is loaded, "No items found" exactly when items are loaded but none is shown, and no heading otherwise |
| ItemDetail.AllImagesShape | frontend/src/pages/ItemDetail.tsx:61 | the carousel is the cover followed by the additional images, one longer than the item's list, or empty without an item; the controls exist exactly when there are additional images |
| ItemDetail.StepsStayInRange | frontend/src/pages/ItemDetail.tsx:63-69 | both arrows keep the index in `[0, n)` |
| ItemDetail.NextValue | frontend/src/pages/ItemDetail.tsx:63-65 | right moves one further, and from the last image to the cover |
| ItemDetail.PrevValue | frontend/src/pages/ItemDetail.tsx:67-69 | left moves one back, and from the cover to the last image |
| ItemDetail.StepsAreInverse | frontend/src/pages/ItemDetail.tsx:63-69 | `prev(next(i)) = i` and `next(prev(i)) = i` |
| ItemDetail.StepsWrapAround | frontend/src/pages/ItemDetail.tsx:63-69 | left from 0 gives n-1 and right from n-1 gives 0 |
| ItemDetail.ItemDetailPage.constructor | frontend/src/pages/ItemDetail.tsx:21-24 | no item, index 0, button enabled, no enquiry sent |
| ItemDetail.ItemDetailPage.Load | frontend/src/pages/ItemDetail.tsx:32-36 | the fetched item is stored and the index is left as it was |
| ItemDetail.ItemDetailPage.NextImage | frontend/src/pages/ItemDetail.tsx:63-65 | the index becomes `(i+1) mod n` and still names an image; nothing else changes |
| ItemDetail.ItemDetailPage.PrevImage | frontend/src/pages/ItemDetail.tsx:67-69 | the index becomes `(i-1+n) mod n` and still names an image; nothing else changes |
| ItemDetail.ItemDetailPage.SelectImage | frontend/src/pages/ItemDetail.tsx:124-144 | with the controls shown, indicator or thumbnail k sets the index to k and shows image k |
| ItemDetail.ItemDetailPage.HandleEnquiry | frontend/src/pages/ItemDetail.tsx:46-59 | without an item nothing is sent; otherwise one enquiry for the item's id is sent and the button is enabled again |
| ItemDetail.OpenPage | frontend/src/pages/ItemDetail.tsx:24-102 | a freshly opened page shows the cover of the item it loads |
| ItemDetail.NextThenPrev | frontend/src/pages/ItemDetail.tsx:63-69 | right then left shows the image shown before |
| AddItem.AddItemForm.constructor | frontend/src/pages/AddItem.tsx:21-30 | the form starts empty, with no files, no previews and no request |
| AddItem.AddItemForm.HandleInputChange | frontend/src/pages/AddItem.tsx:32-38 | only the named field takes the new value; every other cell is unchanged |
| AddItem.SetFieldFrame | frontend/src/pages/AddItem.tsx:32-38 | a change updates the named field and leaves the other two as they were |
| AddItem.AddItemForm.HandleCoverImageChange | frontend/src/pages/AddItem.tsx:40-50 | the first picked file becomes the cover, with its preview; an empty selection changes nothing |
| AddItem.AddItemForm.RemoveCoverImage | frontend/src/pages/AddItem.tsx:212-214 | the cover and its preview are cleared |
| AddItem.DataUrlsAppend | frontend/src/pages/AddItem.tsx:52-65 | the previews of two selections picked one after the other are the first selection's previews followed by the second's |
| AddItem.AddItemForm.HandleAdditionalImagesChange | frontend/src/pages/AddItem.tsx:52-65 | picked files are appended in order after the existing ones, each with its preview; an empty selection changes nothing |
| AddItem.AddItemForm.RemoveAdditionalImage | frontend/src/pages/AddItem.tsx:67-70 | the same position is dropped from the files and from the previews, so every file keeps its own preview |
| AddItem.RemoveAtSpec | frontend/src/pages/AddItem.tsx:67-70 | removing position i drops exactly that position and keeps the others in order; an out-of-range i changes nothing |
| AddItem.KeepOthersSpec | frontend/src/pages/AddItem.tsx:68-69 | the index filter, counted from any starting position, drops exactly the matching position |
| AddItem.RemoveAtKeepsPreviews | frontend/src/pages/AddItem.tsx:67-70 | removing a position from the previews gives the previews of the files with that position removed |
| AddItem.AddItemForm.BuildPayload | frontend/src/pages/AddItem.tsx:83-91 | the entries built one by one are the payload: the three fields, the cover, then every additional image |
| AddItem.ImageEntriesAppend | frontend/src/pages/AddItem.tsx:83-91 | the `images` entries of two lists of files are the first list's entries followed by the second's |
| AddItem.PayloadOrder | frontend/src/pages/AddItem.tsx:83-91 | the payload is name, type, description, coverImage, then one `images` entry per additional image in list order |
| AddItem.PayloadFilesRoundTrip | frontend/src/pages/AddItem.tsx:83-91 | reading the files back out of the payload gives the cover alone under `coverImage` and the additional images, in order, under `images` |
| AddItem.AddItemForm.HandleSubmit | frontend/src/pages/AddItem.tsx:72-113 | a request is made exactly when the three fields and a cover are present; otherwise nothing changes; after a successful request the form is empty, after a failed one it is kept; the busy flag ends off |
| AddItem.TypeChoicesAgree | frontend/src/pages/AddItem.tsx:7-17 | the form's type choices are the list page's, without "All" |
| Text.ContainsIff | frontend/src/pages/ViewItems.tsx:45-46 | the left-to-right `includes` scan finds a string exactly when it occurs at some offset |
| Text.LastIndexSpec | backend/src/routes/items.ts:23 | the last-index scan returns the last position of the character, or -1 when it does not occur |

## Left out

- GET `/` is left out. Its only logic is the `createdAt` descending order, which the database applies.
- Multer's own multipart parsing is not modelled, nor its removal of the files of a refused request. The creation of `uploads/` is left out too. The model applies the per-part rules in arrival order: field and count, then the filter, then the size. A refused submission leaves no staged file.
- `UploadRules.IntakeFrom`: multer skips a file part whose file name is empty. The model passes such a part to the file filter instead, which refuses it (empty extension), so the request gets a 500 where multer's would go on without that file (for a cover, a 400 "Cover image is required"). Multer's part parsing is not part of this model.
- A request that is not multipart (`req.files` undefined) is not modelled.
- `ItemsRoute.ItemsRouter.CreateItem`: the additional uploads run concurrently in the source. The model issues them in order and checks afterwards whether every one was taken. The URLs are in submission order either way.
- An uploaded cover is not deleted from the image host when a later step fails. The source does not do this either, so no such compensation is modelled.
- A database that is unreachable during creation is modelled only as a failing insert (`insertFails`). The id and the `createdAt` value it assigns are parameters.
- `Text.ToLower`: lower-casing is ASCII only. Non-ASCII letters are left unchanged.
- The enquiry date is the `toLocaleString()` text, passed in as a string, because it depends on the clock and the locale.
- `ItemDetail.ItemDetailPage.Load` leaves the index where it was, as the source does. The model does not follow a route change from one item to another.
- The failed-load redirect, toasts, navigation, the `setTimeout` after a submission and all rendering are left out. Only the text of the labels is modelled.
- `AddItem.AddItemForm.HandleAdditionalImagesChange`: each preview is the file's data URL, appended in selection order. The source reads the files asynchronously, so previews may arrive in a different order.
- `AddItem.AddItemForm.HandleCoverImageChange` sets the preview at once. In the source it is set when the file reader finishes.
- `AddItem.AddItemForm.HandleSubmit` takes the outcome of the create request as a parameter. The HTTP client in `frontend/src/services/api.ts` is not part of this model.
- The "N images" label of `frontend/src/components/ItemCard.tsx` and the other presentational components are not part of this model.
- The Cloudinary, Prisma and nodemailer SDKs and the environment variables are not modelled. They appear only as the parameters described above.
- Cyclic rotation of the carousel is not proved, i.e. that n steps return to the start. Only single steps and their inverse are.
