# Certificate tracker components in Dafny

This project models the client-side core of a small certificate tracker: the
React components through which a signed-in user lists, adds and deletes their
professional certificates, picks a preset from a template catalog, and queues
certificate files for upload. Each component becomes a Dafny module:

- `Collections` (collections.dfy): JavaScript's `null`/`undefined` as `Option`,
  `Array.prototype.filter` as `Filter`, and `[...new Set(xs)]` as `Distinct`.
  Each comes with its laws: membership, multiplicity, order, and the uniqueness
  of a first-seen listing.
- `Records` (records.dfy): a certificate row or draft as a map from property
  name to text, JavaScript truthiness of a property (`Present`), and the
  spread-update `{...obj, [k]: v}` (`With`).
- `Upload` (upload.dfy): the upload dialog. It has the accept filter (MIME
  type in a fixed list, size at most 10 MiB), the queue of accepted files, and
  removal by index. The batch upload calls the parent's `onUpload` on each
  file in order and stops at the first failure.
- `Dashboard` (dashboard.dfy): the user's certificate list, the `loading` flag
  and the `showModal` flag, and how the initial load, an insert and a delete
  change them on success and on failure.
- `Templates` (templates.dfy): the twelve shipped presets and their nine
  category headings in first-seen order. It covers the grouping of cards
  under those headings and the single-slot selection handed to the caller.
- `Card` (card.dfy): the optional rows a certificate card renders, and the
  two-step delete (trash button, then the Delete button) that guards the
  parent's `onDelete`.
- `Form` (form.dfy): the add-certificate dialog's seven-field draft, edited
  one field at a time and handed to `onAdd` as it stands.

Components whose handlers update React state become classes. Their fields are
the state variables and their methods are the handlers. Each handler is one
atomic step, and the remote store's answer is a parameter. Calls a component
makes to its parent's callbacks (`onAdd`, `onClose`, `onDelete`, `onUpload`)
are recorded in ghost logs or returned as out-parameters. The pure parts
(filters, category listing, grouping, payload construction) are functions,
with lemmas about them.

The components do no more than the model shows. The add dialog submits
whatever the inputs hold, with no trimming or validation. The card shows no
expiry status badge. The dashboard has no search or filter, and no toast
messages. Deleting a certificate removes only its row, not any stored file.
The upload dialog accepts the MIME type `image/jpg` as well as `image/jpeg`.

## Model

| member | source | states |
|---|---|---|
| Collections.Filter | src/components/Dashboard.js:55 | the filtered sequence is no longer than the input and every kept element passes the test |
| Collections.FilterMembers | src/components/Dashboard.js:55 | an element is in the filtered sequence exactly when it is in the input and passes the test |
| Collections.FilterCount | src/components/CertificateUpload.js:38-41 | a passing element keeps its multiplicity and a failing one has none |
| Collections.FilterConcat | src/components/CertificateUpload.js:38-43 | filtering distributes over concatenation, so relative order is kept |
| Collections.FilterAll | src/components/Dashboard.js:55 | a filter every element passes returns the input unchanged |
| Collections.FilterIdempotent | src/components/Dashboard.js:55 | filtering twice with the same test equals filtering once |
| Collections.FilterKeepsOrder | src/components/CertificateTemplates.js:198 | two passing elements keep their relative order in the result |
| Collections.FirstIndex | src/components/CertificateTemplates.js:164 | the returned position holds the value and no earlier position does |
| Collections.FirstIndexAt | src/components/CertificateTemplates.js:164 | a position whose value does not occur earlier is that value's first position |
| Collections.Distinct | src/components/CertificateTemplates.js:164 | the de-duplicated list holds only input values, every input value, and no value twice |
| Collections.FirstIndexExtend | src/components/CertificateTemplates.js:164 | appending a value does not move the first occurrence of a value already present |
| Collections.DistinctFirstSeenOrder | src/components/CertificateTemplates.js:164 | the de-duplicated values are listed by strictly increasing first occurrence, as a Set spread back into an array lists them |
| Collections.FirstSeenTail | src/components/CertificateTemplates.js:164 | dropping the head of a first-seen listing leaves a first-seen listing that no longer holds the head |
| Collections.FirstSeenHeads | src/components/CertificateTemplates.js:164 | two first-seen listings of the same values start with the same value |
| Collections.FirstSeenByKeys | src/components/CertificateTemplates.js:164 | a listing whose first positions strictly increase is in first-seen order |
| Collections.FirstSeenListingsEqual | src/components/CertificateTemplates.js:164 | two first-seen listings of the same set of values are equal |
| Collections.DistinctUnique | src/components/CertificateTemplates.js:164 | any first-seen listing that covers every input value is exactly the de-duplicated list |
| Records.With | src/components/AddCertificateModal.js:20-23 | the spread-update sets the named property (adding it if missing), adds no other key and keeps every other property |
| Records.Present | src/components/CertificateCard.js:36-48 | a property counts as present only when the record has it and its text is non-empty; a missing property is never present |
| Records.WithTwice | src/components/AddCertificateModal.js:19-24 | setting a property twice keeps only the second value |
| Records.WithCommutes | src/components/AddCertificateModal.js:19-24 | edits to two different fields give the same draft in either order |
| Upload.Accepts | src/components/CertificateUpload.js:38-41 | an accepted file is at most 10485760 bytes and has one of the four listed MIME types |
| Upload.AcceptsExactly | src/components/CertificateUpload.js:38-41 | a file is accepted exactly when its type is one of the four listed MIME types and its size is at most 10485760 bytes; 10485760 is accepted and 10485761 is not |
| Upload.ValidFiles | src/components/CertificateUpload.js:38-41 | a file is among those kept from a batch exactly when it was in the batch and is accepted |
| Upload.ValidFilesExactly | src/components/CertificateUpload.js:37-41 | the filter keeps only accepted files, each as often as given, drops rejected ones, keeps order, and keeps an all-accepted list whole |
| Upload.WithoutIndex | src/components/CertificateUpload.js:46-48 | removing by index deletes exactly the entry at an in-range index, and an out-of-range index removes nothing |
| Upload.UploadAll | src/components/CertificateUpload.js:54-57 | `onUpload` is called on a prefix of the queue in queue order; the batch succeeds exactly when every call succeeds, and otherwise stops right after the first failed call |
| Upload.Intake.constructor | src/components/CertificateUpload.js:6-7 | a fresh dialog has an empty queue and is not uploading |
| Upload.Intake.UploadButtonEnabled | src/components/CertificateUpload.js:146 | the upload button is enabled only when the queue is non-empty and no batch is running |
| Upload.Intake.HandleFiles | src/components/CertificateUpload.js:37-44 | the accepted files of a batch are appended to the queue in order and nothing else changes |
| Upload.Intake.HandleDrop | src/components/CertificateUpload.js:20-28 | a drop with no files leaves the queue alone; otherwise its accepted files are appended |
| Upload.Intake.HandleChange | src/components/CertificateUpload.js:30-35 | a pick with no files leaves the queue alone; otherwise its accepted files are appended |
| Upload.Intake.RemoveFile | src/components/CertificateUpload.js:46-48 | the queue loses exactly the entry at an in-range index; any other index leaves it unchanged |
| Upload.Intake.HandleUpload | src/components/CertificateUpload.js:50-65 | an empty queue does nothing; otherwise `uploading` is raised then lowered, and `onUpload` is called on a non-empty prefix of the queue in which every call before the last succeeded, the last failing unless all succeed; `onClose` runs and the queue clears exactly when every upload succeeds, a failure keeps the queue, and afterwards the upload button is enabled exactly when the dialog did not close |
| Dashboard.InsertPayload | src/components/Dashboard.js:36 | the insert payload is the draft with `user_id` set to the signed-in user, overriding any owner in the draft, and every other draft property kept |
| Dashboard.DraftPayload | src/components/Dashboard.js:36 | a seven-field draft from the dialog carries no owner, so its payload has eight properties: the draft's unchanged plus `user_id` |
| Dashboard.RemoveById | src/components/Dashboard.js:55 | after a delete, the list holds exactly the previous records whose id differs; a missing id leaves it unchanged |
| Dashboard.DeleteTwice | src/components/Dashboard.js:55 | deleting the same id twice equals deleting it once |
| Dashboard.DeleteKeepsOrder | src/components/Dashboard.js:55 | deleting distributes over concatenation, so the surviving records keep their order |
| Dashboard.AddThenDelete | src/components/Dashboard.js:40-55 | deleting a just-prepended record whose id is unique restores the previous list |
| Dashboard.DashboardState.constructor | src/components/Dashboard.js:7-9 | the dashboard starts with no certificates, loading, and the dialog closed |
| Dashboard.DashboardState.LoadCertificates | src/components/Dashboard.js:11-26 | a successful load replaces the list with the returned rows, or with none when the data is null; a failed load keeps the list; loading ends either way |
| Dashboard.DashboardState.OpenModal | src/components/Dashboard.js:93 | the add buttons open the dialog and change nothing else |
| Dashboard.DashboardState.CloseModal | src/components/Dashboard.js:130 | closing the dialog changes nothing else |
| Dashboard.DashboardState.HandleAddCertificate | src/components/Dashboard.js:32-45 | the store receives the owned payload; on success the stored row is prepended and the dialog closes; on failure nothing changes |
| Dashboard.DashboardState.HandleDeleteCertificate | src/components/Dashboard.js:47-59 | on success every record with the id leaves the list; on failure nothing changes |
| Dashboard.Mount | src/components/Dashboard.js:28-30 | after mounting and the one initial load, loading has ended and the dialog is closed; the list is the loaded rows, or empty when the load failed or returned null |
| Templates.CategoryList | src/components/CertificateTemplates.js:164 | the category column lists each template's category at its position |
| Templates.Categories | src/components/CertificateTemplates.js:164 | the headings have no duplicates and include every template's category |
| Templates.CategoriesExactly | src/components/CertificateTemplates.js:164 | the headings have no duplicates, cover every template's category, name only categories that occur, and follow first occurrence |
| Templates.CatalogIdsDistinct | src/components/CertificateTemplates.js:7-162 | the preset list `Catalog` holds twelve presets with pairwise distinct ids |
| Templates.CatalogCategoryList | src/components/CertificateTemplates.js:7-162 | the category of each preset in `Catalog`, in catalog order |
| Templates.CategoryShapeFirstIndices | src/components/CertificateTemplates.js:164 | in a category column shaped like the catalog's, each of the nine names first occurs at the stated position |
| Templates.CategoryShapeFirstSeen | src/components/CertificateTemplates.js:164 | the nine distinct names list such a column in first-seen order |
| Templates.CatalogCategories | src/components/CertificateTemplates.js:164 | the page shows exactly nine headings, in the stated order |
| Templates.Group | src/components/CertificateTemplates.js:198 | the cards under a heading are catalog templates of that category, and no more than the catalog |
| Templates.Grouped | src/components/CertificateTemplates.js:192-198 | every card laid out is a catalog template whose category is one of the headings |
| Templates.GroupedCount | src/components/CertificateTemplates.js:192-198 | under distinct headings, a template appears as often as it occurs in the catalog when its category is a heading, and never otherwise |
| Templates.GroupingPartitions | src/components/CertificateTemplates.js:192-198 | laid out under its own headings, every template appears exactly as often as it occurs in the catalog |
| Templates.GroupMembership | src/components/CertificateTemplates.js:198 | a catalog template is under a heading exactly when that heading is its category |
| Templates.GroupKeepsCatalogOrder | src/components/CertificateTemplates.js:198 | within a heading, cards follow catalog order |
| Templates.TemplatePicker.constructor | src/components/CertificateTemplates.js:5 | the dialog opens with nothing selected |
| Templates.TemplatePicker.SelectTemplate | src/components/CertificateTemplates.js:208 | clicking a card selects that catalog template, replacing any earlier selection |
| Templates.TemplatePicker.HandleSelectTemplate | src/components/CertificateTemplates.js:166-170 | with nothing selected nothing is handed on; otherwise exactly the selected template's data, which is some catalog preset's data, is handed to the caller |
| Card.VisibleRows | src/components/CertificateCard.js:36-57 | the card renders an optional row exactly when the record has that property with a non-empty value |
| Card.Step | src/components/CertificateCard.js:6-81 | the trash button shows the overlay and Delete or Cancel hides it; only a Delete click can call `onDelete`, at most once and with the card's id |
| Card.Run | src/components/CertificateCard.js:6-81 | over any sequence of clicks, `onDelete` calls are only ever added, at most one per click |
| Card.RunDeletes | src/components/CertificateCard.js:6-81 | every `onDelete` call carries the card's own id, and calls plus a still-open overlay never outnumber trash clicks |
| Card.RunDeleteCount | src/components/CertificateCard.js:6-81 | `onDelete` is called exactly once per Delete click that directly follows a trash click |
| Card.DeleteNeedsArmThenConfirm | src/components/CertificateCard.js:6-81 | if `onDelete` was ever called, a trash click came before a Delete click |
| Card.ArmedIffLastTrash | src/components/CertificateCard.js:24-78 | the overlay is shown exactly when the latest input was a trash click |
| Card.CertificateCard.constructor | src/components/CertificateCard.js:4 | a new card shows no overlay and has called nothing |
| Card.CertificateCard.ClickTrash | src/components/CertificateCard.js:24 | the trash button shows the overlay without calling `onDelete` |
| Card.CertificateCard.HandleDelete | src/components/CertificateCard.js:6-9 | the Delete button calls `onDelete` once with the card's id and hides the overlay |
| Card.CertificateCard.CancelDelete | src/components/CertificateCard.js:74 | Cancel hides the overlay without calling `onDelete` |
| Form.InitialDraftShape | src/components/AddCertificateModal.js:4-12 | `InitialDraft`, the draft a fresh dialog holds, has exactly the seven fields, all empty |
| Form.AddCertificateForm.constructor | src/components/AddCertificateModal.js:4-12 | the dialog opens with the empty seven-field draft |
| Form.AddCertificateForm.HandleChange | src/components/AddCertificateModal.js:19-24 | an input's change sets its own field and keeps every other field and the field set |
| Form.AddCertificateForm.HandleSubmit | src/components/AddCertificateModal.js:14-17 | submit hands the draft to `onAdd` exactly as it stands and keeps it |
| Form.AddCertificateForm.Close | src/components/AddCertificateModal.js:32-154 | the close and Cancel buttons call `onClose` and never `onAdd` |

## Left out

- The remote store (the Supabase client) is not part of this model. Each query's outcome is a parameter of the handler that awaits it. Query filters, ordering by `created_at` and row-level ownership belong to the store.
- Asynchrony is not modelled. Each handler runs as one atomic step, so React's stale closures over `certificates`, and interleavings of overlapping loads, inserts and deletes, are outside the model.
- Dashboard.DashboardState.HandleAddCertificate: an insert that succeeds but returns no rows (so `data[0]` is undefined) is not modelled; a successful insert always carries the stored row.
- Upload.Intake.HandleUpload: `onUpload`'s outcome is indexed by the position of the call within the batch. A second click on the upload button during a batch is impossible because the button is disabled (`UploadButtonEnabled`). Other edits during a batch are listed below. `onClose`'s effect on the parent is not modelled.
- Edits to the queue while a batch runs are not modelled. Only the upload button is disabled during a batch. The remove buttons, the drop zone and the file picker stay live, and the loop uploads the queue as it stood when the button was clicked. So a file removed during the batch is still uploaded. On success, clearing the queue also discards files added during the batch that were never uploaded.
- The `dragActive` highlight, the drop zone's click that opens the file picker, and the picker's `accept` attribute are not modelled; they are presentation only and do not touch the queue.
- `formatFileSize` in the upload dialog and `formatDate` on the card use floating point and locale formatting, and are not modelled.
- The browser's `required` and `type="url"` checks on the add dialog's inputs are browser behaviour and are not modelled; the model's submit hands on any draft.
- Template icons, colour classes and the selected-card highlight are not modelled; they are presentation only.
- The upload dialog's and the template dialog's own close and Cancel buttons only call the parent's `onClose`; they change no state of theirs and are not modelled.
- The login screen, authentication, logout and the parent components that mount these dialogs are not part of this model.
