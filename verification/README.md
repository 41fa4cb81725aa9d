# Resume Architect, the editor's rules in Dafny

Resume Architect is a browser resume editor. The user fills in a form, sees a
live preview, exports it as a PDF and picks a colour theme. Almost all of the
program is presentation. This project models the few pieces of it that hold
real logic, as pure functions over immutable values:

- **Skills codec** (`SkillsForm`). The Skills textarea turns its text into
  the skill list: split on `,`, trim each piece, drop the empty ones. It shows
  the list back joined with `", "`. The JavaScript built-ins this relies on
  (`trim` with the ECMAScript white-space set, one-character `split`, `join`,
  `toLowerCase`, number-to-decimal) are in `Text`.
- **Publication partition** (`AcademicTemplate`). The Academic template
  splits the experience entries on a case-insensitive match of the company
  against `"publication"`. A section is rendered only when it has content.
- **List editors** (`FieldArray`, `ExperienceForm`, `EducationForm`,
  `ProjectsForm`). "Add" appends a blank entry. Its id is a prefix followed
  by the new length. The trash button removes the entry at its index.
- **Editor page** (`Page`, `ResumeSchema`). This covers:
  - the exported file name;
  - the download button's busy flag and the capture it waits for;
  - the shape the form's validation schema enforces.
- **Themes** (`ThemeProvider`, `ColorPicker`). The theme store reads and
  writes local storage, which is modelled as a map. The picker has a swatch
  and a menu of five themes.

The record shapes are in `ResumeTypes`, which also holds the sample resume
the editor starts with. `Results` has the `Option` and `Result` types.

## Model

| member | source | states |
|---|---|---|
| Text.Trim | src/components/resume/SkillsForm.tsx:34 | `trim` removes exactly the leading white space and then the trailing white space, and keeps the middle as a contiguous slice of the input. The result starts and ends with a non-white-space character. |
| Text.TrimEmptyIff | src/components/resume/SkillsForm.tsx:34 | A piece trims to "" exactly when every character is white space. |
| Text.Split | src/components/resume/SkillsForm.tsx:34 | `split(',')` gives at least one piece, no piece contains the separator, and joining the pieces with the separator gives back the text. |
| Text.SplitAtSeparator | src/components/resume/SkillsForm.tsx:34 | Splitting `a + "," + b` gives the pieces of `a` followed by the pieces of `b`. |
| Text.SplitJoin | src/components/resume/SkillsForm.tsx:34-37 | Splitting the join of separator-free pieces gives the pieces back. |
| Text.JoinParts | src/components/resume/SkillsForm.tsx:37 | The steps of `join`: "" for the empty list, the item itself for one item, and otherwise the first item, the separator, then the join of the rest. These facts follow the definition. Its independent partner is `Text.SplitJoin`: `split` undoes `join` when no item holds the separator. |
| Text.ToLower | src/components/resume/templates/AcademicTemplate.tsx:18 | An ASCII-only model of `toLowerCase`. It keeps the length and maps each character on its own: upper-case ASCII letters become lower case, and other characters are left as they are. |
| Text.Decimal | src/components/resume/ExperienceForm.tsx:129 | The decimal rendering of a number in a template literal is a non-empty digit string with no leading zero. |
| Text.DecimalRoundTrip | src/components/resume/ExperienceForm.tsx:129 | Reading the rendered digits back gives the number. |
| Text.PrefixedDecimalInjective | src/components/resume/ExperienceForm.tsx:129 | The same prefix followed by two different counts gives two different ids. |
| SkillsForm.Clean | src/components/resume/SkillsForm.tsx:34 | `map(trim).filter(Boolean)` keeps at most as many pieces as it is given. It yields only skills when the pieces are comma-free. |
| SkillsForm.CleanSingle | src/components/resume/SkillsForm.tsx:34 | One piece gives nothing when it is blank and its trimmed text otherwise. |
| SkillsForm.CleanAppend | src/components/resume/SkillsForm.tsx:34 | Trimming and filtering a concatenation handles each part on its own. Together with CleanSingle this fixes which pieces survive, and in what order. |
| SkillsForm.Parse | src/components/resume/SkillsForm.tsx:34 | Every parsed skill is non-empty, has no leading or trailing white space and contains no comma. |
| SkillsForm.ParseAtComma | src/components/resume/SkillsForm.tsx:34 | Skills keep input order. The text before a comma contributes its skills ahead of the text after it. |
| SkillsForm.ParseWithoutComma | src/components/resume/SkillsForm.tsx:34 | Comma-free text gives no skill when it is blank. Otherwise it gives the one trimmed skill. |
| SkillsForm.ParseEmptyIff | src/components/resume/SkillsForm.tsx:34 | The text parses to no skills exactly when it consists only of white space and commas, the empty text included. |
| SkillsForm.Display | src/components/resume/SkillsForm.tsx:37 | When the field does not hold an array, the textarea shows "". Otherwise it shows the list joined with ", ", and that text parses back to the list when it is a list of skills. |
| SkillsForm.ParseDisplay | src/components/resume/SkillsForm.tsx:34-37 | Round trip: for non-empty, trimmed, comma-free skills, parsing the `", "` join gives the list back. |
| SkillsForm.ParseIdempotent | src/components/resume/SkillsForm.tsx:34-37 | Normalisation is idempotent: parse(display(parse(s))) == parse(s). |
| AcademicTemplate.Publications | src/components/resume/templates/AcademicTemplate.tsx:18 | `publications` holds exactly the entries whose lower-cased company is "publication". |
| AcademicTemplate.ProfessionalExperience | src/components/resume/templates/AcademicTemplate.tsx:19 | `professionalExperience` holds exactly the other entries. |
| AcademicTemplate.IsPublication | src/components/resume/templates/AcademicTemplate.tsx:18 | The company "publication" itself matches, and any match has exactly eleven characters. |
| AcademicTemplate.PartitionInterleaves | src/components/resume/templates/AcademicTemplate.tsx:18-19 | The experience list is a merge of the two lists. Each entry goes to exactly one of them, and both keep the original relative order. |
| AcademicTemplate.InterleavesCounts | src/components/resume/templates/AcademicTemplate.tsx:18-19 | A merge uses each element once: the lengths add up and the multisets add up. |
| AcademicTemplate.PartitionComplete | src/components/resume/templates/AcademicTemplate.tsx:18-19 | The two lengths sum to the experience length. No entry is lost or duplicated. |
| AcademicTemplate.SelectAppend | src/components/resume/templates/AcademicTemplate.tsx:18-19 | Filtering a concatenation filters each part. |
| AcademicTemplate.IsPublicationIff | src/components/resume/templates/AcademicTemplate.tsx:18 | The match folds case and does nothing else. The company must be exactly the eleven letters of "publication", each in either case. |
| AcademicTemplate.MatchExamples | src/components/resume/templates/AcademicTemplate.tsx:18 | "PUBLICATION" and "Publication" match. "Publications" and " publication" do not. |
| AcademicTemplate.InitialDataHasNoPublications | src/lib/initial-data.ts:14-35 | In the sample resume every entry is professional experience. |
| AcademicTemplate.Shown | src/components/resume/templates/AcademicTemplate.tsx:54-66 | The Publications section is rendered exactly when some entry is a publication. Professional Experience is rendered exactly when some entry is not. |
| AcademicTemplate.Sections | src/components/resume/templates/AcademicTemplate.tsx:35-104 | The rendered sections are exactly those whose condition holds. Each appears once, in page order from Research Statement down to Skills. |
| AcademicTemplate.ShownAmongInOrder | src/components/resume/templates/AcademicTemplate.tsx:35-104 | Dropping the sections that are not shown keeps the others in page order. |
| FieldArray.Append | src/components/resume/ExperienceForm.tsx:129 | `append`: the item goes last and every earlier entry stays in place. |
| FieldArray.RemoveAt | src/components/resume/ExperienceForm.tsx:119 | `remove(index)`: entries before the index stay and those after it move up by one. The multiset loses exactly the removed entry. |
| FieldArray.NextId | src/components/resume/ExperienceForm.tsx:129 | The new id is the prefix followed by the decimal digits of the count plus one, with no leading zero. That is exactly the one rendering `${fields.length + 1}` gives. |
| FieldArray.CanonicalIdsDistinct | src/components/resume/ExperienceForm.tsx:129 | Ids built by "Add" alone are pairwise distinct. |
| FieldArray.AppendKeepsCanonical | src/components/resume/ExperienceForm.tsx:129 | "Add" keeps ids of the form prefix1..prefixN in that form. |
| FieldArray.RemoveThenAppendDistinctIff | src/components/resume/ExperienceForm.tsx:119-129 | From prefix1..prefixN, removing entry i and then adding gives distinct ids exactly when i was the last entry. The new id is always prefixN. |
| FieldArray.RemoveThenAppendIds | src/components/resume/ExperienceForm.tsx:119-129 | For any entry type: from entries with ids prefix1..prefixN, a remove followed by an append of the next id keeps the ids distinct exactly when the removed entry was last. |
| FieldArray.NextIdAfterRemoveIsLast | src/components/resume/ExperienceForm.tsx:119-129 | From prefix1..prefixN, the id the add button picks once one entry is gone is prefixN, the id of the last entry. |
| ExperienceForm.Blank | src/components/resume/ExperienceForm.tsx:129 | The appended entry has empty jobTitle, company, location, startDate, endDate and description. |
| ExperienceForm.Add | src/components/resume/ExperienceForm.tsx:129 | "Add" appends one blank entry, leaves the existing entries unchanged and in place, and gives it the id "exp" followed by the decimal digits of the new count, with no leading zero. |
| ExperienceForm.Remove | src/components/resume/ExperienceForm.tsx:119 | Delete removes exactly the entry at its index, and the others keep their order. |
| ExperienceForm.RemoveThenAddIds | src/components/resume/ExperienceForm.tsx:119-129 | From exp1..expN, a delete followed by an add keeps the ids distinct exactly when the last entry was deleted. |
| ExperienceForm.RemoveNonLastReusesLastId | src/components/resume/ExperienceForm.tsx:119-129 | From exp1..expN, deleting any entry but the last and adding gives the new entry the id expN. The former last entry keeps that id and now sits just before the new one. |
| ExperienceForm.SampleDeleteFirstThenAdd | src/components/resume/ExperienceForm.tsx:119-129 | From the sample's [exp1, exp2], deleting index 0 and adding gives [exp2, exp2]. |
| EducationForm.Blank | src/components/resume/EducationForm.tsx:100 | The appended entry has empty school, degree, location and graduationYear. |
| EducationForm.Add | src/components/resume/EducationForm.tsx:100 | "Add" appends one blank entry, leaves the existing entries in place, and gives it the id "edu" followed by the decimal digits of the new count, with no leading zero. |
| EducationForm.Remove | src/components/resume/EducationForm.tsx:90 | Delete removes exactly the entry at its index, and the others keep their order. |
| EducationForm.RemoveThenAddIds | src/components/resume/EducationForm.tsx:90-100 | From edu1..eduN, deleting a non-last entry and adding repeats an id, and deleting the last one does not. |
| EducationForm.RemoveNonLastReusesLastId | src/components/resume/EducationForm.tsx:90-100 | From edu1..eduN, deleting any entry but the last and adding gives the new entry the id eduN. The former last entry keeps that id and now sits just before the new one, so the repeated id is eduN. |
| EducationForm.SampleIdsCanonical | src/lib/initial-data.ts:36-44 | The sample's education ids are [edu1], which is of the form "Add" builds. |
| ProjectsForm.Blank | src/components/resume/ProjectsForm.tsx:86 | The appended entry has empty name, link and description. |
| ProjectsForm.Add | src/components/resume/ProjectsForm.tsx:86 | "Add" appends one blank entry, leaves the existing entries in place, and gives it the id "proj" followed by the decimal digits of the new count, with no leading zero. |
| ProjectsForm.Remove | src/components/resume/ProjectsForm.tsx:76 | Delete removes exactly the entry at its index, and the others keep their order. |
| ProjectsForm.RemoveThenAddIds | src/components/resume/ProjectsForm.tsx:76-86 | From proj1..projN, a delete followed by an add keeps the ids distinct exactly when the last entry was deleted. |
| ProjectsForm.RemoveNonLastReusesLastId | src/components/resume/ProjectsForm.tsx:76-86 | From proj1..projN, deleting any entry but the last and adding gives the new entry the id projN. The former last entry keeps that id and now sits just before the new one. |
| ProjectsForm.SampleDeleteFirstThenAdd | src/components/resume/ProjectsForm.tsx:76-86 | From the sample's [proj1, proj2], deleting index 0 and adding gives [proj2, proj2]. |
| Page.ReplaceFirstSpace | src/app/page.tsx:89 | `replace(' ', '-')` keeps the length and every non-space. The first space becomes '-', and every later space survives. |
| Page.ReplaceFirstSpaceCounts | src/app/page.tsx:89 | A name without spaces is copied verbatim. Otherwise exactly one space turns into '-'. |
| Page.FileName | src/app/page.tsx:89 | The file name starts with "Resume-", ends with ".pdf" and is 11 characters longer than the name. The middle is the name with its first space replaced. |
| Page.FileNameOfSpacedName | src/app/page.tsx:89 | For a name whose first space follows `head`, the file is "Resume-" + head + "-" + the rest of the name, with later spaces kept. |
| Page.FileNameOfPlainName | src/app/page.tsx:89 | A name without spaces gives "Resume-" + name + ".pdf". |
| Page.Click | src/app/page.tsx:63-67 | Without a preview element the handler changes nothing and leaves the flag untouched. A disabled button does nothing. Otherwise the flag is set before the capture and the name is captured. |
| Page.CaptureDone | src/app/page.tsx:69-91 | After the capture one file is saved, named after the name seen at click time, and then the flag is cleared. |
| Page.Edit | src/components/resume/ResumeForm.tsx:31-33 | A form change replaces the page data and leaves the flag, the pending capture and the saved files alone. |
| Page.StepsKeepValid | src/app/page.tsx:56-108 | The page starts idle with the flag clear (`useState(false)`), and every step keeps the flag set exactly while a capture is pending. So in every reachable state the button is disabled exactly during a capture, and a click then does nothing. |
| Page.DownloadSavesOneFile | src/app/page.tsx:63-92 | A download from an idle page saves exactly one file, even if the data was edited meanwhile, and re-enables the button. |
| ResumeSchema.AsString | src/app/page.tsx:20 | `z.string()` accepts every string, the empty one included, and rejects every other value at its path. |
| ResumeSchema.PersonalInfoSchema | src/app/page.tsx:19-26 | Accepts exactly an object whose six properties are all strings, and takes each field from its property. |
| ResumeSchema.ExperienceSchema | src/app/page.tsx:28-36 | Accepts exactly an object whose seven properties are all strings, and takes each field from its property. |
| ResumeSchema.EducationSchema | src/app/page.tsx:37-43 | Accepts exactly an object whose five properties are all strings, and takes each field from its property. |
| ResumeSchema.ProjectSchema | src/app/page.tsx:45-50 | Accepts exactly an object whose four properties are all strings, and takes each field from its property. |
| ResumeSchema.Items | src/app/page.tsx:28-50 | An accepted array gives one value per item. |
| ResumeSchema.ArrayAt | src/app/page.tsx:28-50 | A property that is not an array is rejected at that key. An accepted array property gives one value per item, and each value is what the entry schema gives for that item at the path key, index. |
| ResumeSchema.Validate | src/app/page.tsx:18-51 | `resumeSchema` rejects anything but an object at the root. An accepted value takes its summary from the string property. Its personal details are what the personal-info schema gives for that property. Each of its four lists is what the matching entry schema gives, item by item. |
| ResumeSchema.ItemsIff | src/app/page.tsx:28-50 | `z.array` accepts exactly when every item passes at its own index, and then it yields each item's parse. |
| ResumeSchema.ItemsOfEncoded | src/app/page.tsx:28-50 | An array of encoded items validates back to the items. |
| ResumeSchema.EntriesRoundTrip | src/app/page.tsx:19-50 | Each entry schema accepts the plain-object form of any entry, whatever its strings hold, and gives the entry back. |
| ResumeSchema.ValidateEncode | src/app/page.tsx:18-51 | The schema puts no content constraint on any leaf. Every resume, whatever its strings (including ""), validates to itself. |
| ResumeSchema.ValidateIgnoresUnknownKey | src/app/page.tsx:18-51 | A key the schema does not know is dropped, not rejected. |
| ResumeSchema.ValidateRejectsNonStringSummary | src/app/page.tsx:27 | Shape is enforced. A summary that is missing or not a string is rejected at the path ["summary"]. |
| ThemeProvider.InitialTheme | src/components/theme-provider.tsx:24-26 | With no window, the initial theme is the default. It is the stored value when that is non-empty, and the default when it is absent or "". |
| ThemeProvider.GetItem | src/components/theme-provider.tsx:25 | `getItem` returns a value exactly when the key is stored, and then it is the stored string. |
| ThemeProvider.Mount | src/components/theme-provider.tsx:24-26 | A mounted provider keeps its props and starts at the initial theme. |
| ThemeProvider.SetTheme | src/components/theme-provider.tsx:33-36 | After `setTheme(t)` the store maps the key to t, the theme is t, and no other store key changes. |
| ThemeProvider.PersistenceRoundTrip | src/components/theme-provider.tsx:24-36 | A fresh provider on the same key starts at t after `setTheme(t)` with t != "". After `setTheme("")` it falls back to the default. |
| ThemeProvider.DefaultStart | src/components/theme-provider.tsx:17-25 | With the default props and nothing stored, the provider starts at "default". |
| ThemeProvider.UseTheme | src/components/theme-provider.tsx:50-56 | `useTheme` fails with its message exactly when there is no enclosing provider. Otherwise it returns that provider's state. |
| ColorPicker.ThemesWellFormed | src/components/ColorPicker.tsx:17-23 | The five theme names are pairwise distinct and every colour is non-empty. |
| ColorPicker.Find | src/components/ColorPicker.tsx:37 | `find` returns the first entry with the name, or nothing when no entry has it. |
| ColorPicker.SwatchColor | src/components/ColorPicker.tsx:37 | The swatch shows the colour of the entry named by the current theme. An unknown theme falls back to the first entry's colour. |
| ColorPicker.Checked | src/components/ColorPicker.tsx:53 | An item is checked when its name is the theme. A checked menu item is the one whose colour the swatch shows. |
| ColorPicker.AtMostOneChecked | src/components/ColorPicker.tsx:53 | At most one item is checked. When none is, the swatch shows the colour of "default". |
| ColorPicker.Select | src/components/ColorPicker.tsx:45 | A click calls `setTheme` with exactly that item's name. Afterwards exactly that item is checked, the swatch shows its colour, and the name is stored. The provider's props stay the same, and no other storage key changes. |

## Left out

- Templates and preview markup: the other templates and `ResumePreview` are layout only. Of the Academic template, only the partition and the section conditions are modelled.
- PDF export internals: `html2canvas` and `jsPDF` are foreign calls, and the page-size arithmetic is floating point. The capture is one step of the state machine, and the model records only the saved file's name.
- The download's failure path: the handler has no `try/finally`, so if the capture throws, the flag stays set. The model has no step for a failed capture.
- The AI resume-tailoring flow and its Genkit setup: these are network and LLM calls.
- The form library's machinery (`watch` subscriptions, `useFieldArray` internals, field binding): `append` and `remove` are plain sequence operations.
- FieldArray.RemoveAt: it requires the index to be within the list. The trash buttons only ever pass the index of a rendered entry, and the library's out-of-range behaviour is not modelled.
- The `data-theme` attribute written to the document root: this is a DOM side effect. Local storage is a map from keys to strings.
- AcademicTemplate.IsPublicationIff: `toLowerCase` is modelled on ASCII letters only. In JavaScript some non-ASCII characters lower-case to other characters ("É" to "é"). U+0130 lower-cases to two characters, "i" followed by U+0307. U+212A KELVIN SIGN lower-cases to the ASCII letter "k". None of these results can be part of the string "publication", because U+0307, "k" and the non-ASCII letters do not occur in it. So a match is decided the same way as in the model. Strings are sequences of code points, not UTF-16 units.
- Text.ToLower: models `toLowerCase` on ASCII only. Non-ASCII case mapping is not modelled, and neither is U+0130 lower-casing to two characters, which lengthens the string. The model keeps every non-ASCII character and the length.
- SkillsForm.Display: the join of an array that holds non-strings is not modelled. The field only ever receives string arrays from the parser or the sample data.
- ResumeSchema.ValidateRejectsNonStringSummary: the schema library collects every issue in one pass. The model stops at the first, and this lemma names that one.
