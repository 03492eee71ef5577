# Photo watermark tool — verified model of its core

The tool stamps every photo of a directory with the date the photo was taken and writes the
results to a `_watermark` subdirectory. This project models in Dafny the parts of
`WatermarkTool` that decide *what* is drawn and *where*, and proves what they promise:

- **Placement** (`placement.dfy`): `calculate_watermark_position` maps the canvas size, the
  text box size and an anchor name to the top-left drawing coordinate, 20 pixels in from the
  named edges, centred with floor division for "center", bottom-left for any other name, and
  never clamped. The semi-transparent background box sticks out 5 pixels around the text.
- **Date resolver** (`digits.dfy`, `dates.dfy`): `get_exif_date` turns the EXIF stamp
  "YYYY:MM:DD HH:MM:SS" into "YYYY-MM-DD", and falls back to the file's modification date and
  then to today's date, so it always yields a valid date.
- **File filter** (`image_files.dfy`): `get_image_files` keeps the directory entries whose
  lower-cased name ends in `.jpg`, `.jpeg`, `.png`, `.tiff` or `.bmp`, in listing order,
  joined to the directory; an unreadable directory yields no files.
- **Preferences** (`preferences.dfy`): the font-size range 10..200, the colour menu (keys
  "1".."6") and the position menu (keys "1".."5"), each prompt's retry loop run over the
  answers given.
- **Processing pass** (`processing.dfy`): `process_images` counts the images that were
  watermarked; per-file failures are counted, never raised.

The anchor is a plain string, as in the code (an enumeration would hide the fallback branch
for unknown names). The operating system, the clock and the imaging library are parameters:
`Processing.Environment` supplies the EXIF value and modification date of each file, the date
the clock shows while each image is processed (the program reads it anew for every image
that needs it, so a run may cross midnight), and whether drawing and saving one image
succeeds.

## Model

| member | source | states |
|---|---|---|
| Placement.CalculateWatermarkPosition | watermark_tool.py:114-129 | the text box is 20 from the left edge for top-left, bottom-left and unknown names, 20 from the right edge for the right anchors, likewise top and bottom; centred with any odd pixel on the right/bottom; for a right (bottom) anchor x < 0 (y < 0) exactly when the text plus margin is wider (taller) than the canvas |
| Placement.PlacementUnique | watermark_tool.py:114-129 | the coordinate is the only one meeting those edge-gap requirements, for every anchor name (both directions) |
| Placement.DefaultIsBottomLeft | watermark_tool.py:122-129 | any name other than the five anchors is placed exactly like bottom-left |
| Placement.BottomRightExample | watermark_tool.py:124-125 | a 120 x 30 text at the bottom right of a 1000 x 800 photo is drawn at (860, 750) |
| Placement.BackgroundBox | watermark_tool.py:179-183 | the box encloses the text with exactly 5 pixels to spare on each side, so it is 10 wider and 10 taller |
| Placement.BackgroundInsideCanvas | watermark_tool.py:170-183 | when the text fits with a margin on both sides, the background box stays inside the canvas for every anchor |
| Digits.ParseDigits | watermark_tool.py:58 | a field of k digits denotes a number below 10^k |
| Digits.ParseTwoDigits | watermark_tool.py:58 | a two-digit field is worth ten times its first digit plus its second |
| Digits.ParseFourDigits | watermark_tool.py:58 | a four-digit field is worth its digits by place value |
| Digits.ParsePad | watermark_tool.py:58-59 | a number written zero-padded to a width it fits reads back as itself |
| Digits.PadParse | watermark_tool.py:58-59 | a digit field is the zero-padded writing of the number it denotes |
| Dates.DaysInMonth | watermark_tool.py:58 | months have 28 to 31 days, 29 exactly for February of a Gregorian leap year |
| Dates.ParseExif | watermark_tool.py:57-58 | a stamp is accepted only as a valid date and time (month, day of that month, hour, minute, second in range) |
| Dates.FormatExif | watermark_tool.py:57 | the writer's side: every time is written in the "YYYY:MM:DD HH:MM:SS" layout |
| Dates.DateRoundTrip | watermark_tool.py:58-59 | a date whose fields fit their widths is read back from its writing, whichever separator is used |
| Dates.DateCanonical | watermark_tool.py:58-59 | a year-month-day field group is the writing of the date it reads as |
| Dates.TimeCanonical | watermark_tool.py:58 | an hour-minute-second field group is the writing of the time it reads as |
| Dates.ExifRoundTrip | watermark_tool.py:57-58 | parsing the written stamp of a valid time gives that time back |
| Dates.ExifCanonical | watermark_tool.py:57-58 | every accepted stamp is the written form of what it parses to, so parsing is a bijection onto valid times |
| Dates.FormatDate | watermark_tool.py:59 | the watermark text has 10 characters, '-' at positions 4 and 7, digits elsewhere |
| Dates.ParseIsoDate | watermark_tool.py:59 | reading a watermark text back only ever yields a valid date |
| Dates.IsoRoundTrip | watermark_tool.py:59 | the text written for a valid date reads back as that date |
| Dates.ExifToIso | watermark_tool.py:58-59 | a stamp is reformatted exactly when it parses; the result has 10 characters, the stamp's own year, month and day digits and '-' at positions 4 and 7, and denotes the captured date |
| Dates.ReformatWrittenStamp | watermark_tool.py:58-59 | the watermark text of any valid stamp is the text of the date it records |
| Dates.ExampleDateFields | watermark_tool.py:57-58 | "2023:05:17" reads as 17 May 2023 |
| Dates.ExampleTimeFields | watermark_tool.py:57-58 | "10:00:00" reads as 10 hours, 0 minutes, 0 seconds |
| Dates.ExampleStampParses | watermark_tool.py:57-58 | "2023:05:17 10:00:00" parses to 17 May 2023, 10:00:00 |
| Dates.ExifExample | watermark_tool.py:57-59 | "2023:05:17 10:00:00" becomes "2023-05-17" |
| Dates.LeapDayFields | watermark_tool.py:58 | "2023:02:29" reads as 29 February 2023 |
| Dates.ImpossibleDayRefused | watermark_tool.py:58 | "2023:02:29 10:00:00" is refused (2023 is not a leap year), so the resolver falls back |
| Dates.ExifDate | watermark_tool.py:53-59 | a capture date exists exactly when there is an EXIF value and it parses, and it is a valid date |
| Dates.ResolveDate | watermark_tool.py:48-69 | the watermark text always has the "YYYY-MM-DD" layout: 10 characters with '-' at positions 4 and 7 |
| Dates.ResolveDatePriority | watermark_tool.py:48-69 | the resolver never fails: its text always reads back as a valid date, the EXIF date when there is one, else the modification date when there is one, else today |
| ImageFiles.ToLower | watermark_tool.py:40 | lower-casing keeps the length, leaves no capital A-Z, turns each capital into the small letter at the same place in the alphabet and keeps every other character |
| ImageFiles.ToLowerIdempotent | watermark_tool.py:40 | lower-casing a lower-cased name changes nothing |
| ImageFiles.EndsWithAny | watermark_tool.py:40 | `endswith` with a tuple: the suffixes are tried in turn and the name is accepted when one of them ends it |
| ImageFiles.EndsWithAnyExists | watermark_tool.py:40 | trying the suffixes in turn succeeds exactly when some suffix of the tuple ends the name (both directions) |
| ImageFiles.IsSupported | watermark_tool.py:33-40 | a file is kept exactly when its lower-cased name ends in one of ".jpg", ".jpeg", ".png", ".tiff", ".bmp" |
| ImageFiles.SupportedIgnoresCase | watermark_tool.py:40 | for every name, it is kept exactly when its lower-cased form would be, so the extension's case never matters |
| ImageFiles.Join | watermark_tool.py:41 | a joined path ends with the entry's name |
| ImageFiles.Basename | watermark_tool.py:224 | a base name holds no '/' |
| ImageFiles.BasenameAfterSlash | watermark_tool.py:224 | the base name of a path ending in "/name" is name |
| ImageFiles.BasenameOfJoin | watermark_tool.py:224 | the base name of directory joined with an entry is the entry |
| ImageFiles.ImagePaths | watermark_tool.py:37-41 | no more paths are kept than there are entries |
| ImageFiles.GetImageFiles | watermark_tool.py:35-46 | an unreadable directory gives no files; otherwise the result is the supported entries joined to the directory, in listing order |
| ImageFiles.ImagePathsAppend | watermark_tool.py:39-41 | filtering a listing in two pieces is filtering it whole, so kept files keep the listing's order |
| ImageFiles.ImagePathsMembership | watermark_tool.py:39-41 | a path is kept exactly when some entry with a supported extension joins to it |
| ImageFiles.KeepsUpperCaseJpg | watermark_tool.py:33-40 | "A.JPG" is kept: the extension is compared case-insensitively |
| ImageFiles.SkipsGif | watermark_tool.py:33-40 | "a.gif" is not kept |
| Preferences.IsValidFontSize | watermark_tool.py:79 | a font size is accepted exactly when 10 <= size <= 200 |
| Preferences.FirstFontSize | watermark_tool.py:76-84 | the size the prompt settles on is always in 10..200 |
| Preferences.FirstFontSizeIsFirst | watermark_tool.py:76-84 | a size is found exactly when some answer is a number in 10..200, and it is the first such answer, every earlier one being refused |
| Preferences.PromptFontSize | watermark_tool.py:76-84 | the retry loop returns the first answer that is a number in 10..200 |
| Preferences.FirstChoice | watermark_tool.py:91-97 | the value a menu prompt settles on is the value under some key of that menu |
| Preferences.FirstChoiceIsFirst | watermark_tool.py:91-97 | a choice is found exactly when some answer is a menu key, and it is the value under the first such answer, every earlier answer being refused |
| Preferences.PromptChoice | watermark_tool.py:91-110 | the retry loop returns the value under the first answer that is a menu key |
| Preferences.GetUserPreferences | watermark_tool.py:71-112 | settings come out exactly when all three prompts get an acceptable answer, and they are the first acceptable size, the colour under the first colour key and the anchor under the first position key typed; the size is in 10..200, the colour a valid RGB triple, the position one of the five anchors |
| Preferences.ExampleAnswers | watermark_tool.py:76-107 | a missing number and the size 5 are asked again before 50 is taken, the unknown key "7" before "2" gives black, and "4" gives the bottom right |
| Preferences.MenusWellFormed | watermark_tool.py:16-31 | the menus accept keys "1".."6" and "1".."5", every colour is a valid RGB triple, every position a named anchor |
| Preferences.PositionMenuCoversAnchors | watermark_tool.py:25-31 | every anchor can be chosen from the position menu |
| Processing.OutputPath | watermark_tool.py:224-225 | the output path ends with the image's file name and has the same base name as the image |
| Processing.Succeeds | watermark_tool.py:48-69 | one image counts exactly when the imaging library draws on it the text of its EXIF date if that parses, else of its modification date if known, else of the date the clock shows at that point of the run, saving it at its output path (lines 224-232) |
| Processing.FileOutcomes | watermark_tool.py:222-233 | one outcome per image, in order, the i-th being whether the i-th image is watermarked |
| Processing.CountTrue | watermark_tool.py:222-233 | the success count never exceeds the number of files |
| Processing.CountTrueStep | watermark_tool.py:232-233 | counting one more file adds one exactly when its watermark succeeded |
| Processing.CountWatermarked | watermark_tool.py:222-233 | the loop's count is the number of images whose watermark, with the date resolved for them at their turn in the run and saved under their own name, succeeded |
| Processing.ProcessImages | watermark_tool.py:200-239 | no supported image ends the run before anything else; a failed output directory ends it next; otherwise the count is the number of images whose watermark (with their resolved date, saved under their own name) succeeded, out of all images |
| Processing.AllSucceeded | watermark_tool.py:233-238 | the count equals the total exactly when every image succeeded |
| Processing.NoneSucceeded | watermark_tool.py:233-238 | the count is zero exactly when no image succeeded |
| Processing.OutputKeepsName | watermark_tool.py:224-225 | each image's output path is the output directory joined with the image's own file name |

## Left out

- The imaging library (opening, EXIF tag lookup, conversion, measuring the text, compositing, drawing, saving; watermark_tool.py:51-55, 131-198): foreign calls. The text box size is an input of the placement, and the success of one image is `Environment.addWatermark`.
- Font discovery and the default-font fallback (watermark_tool.py:143-162): file system and library I/O.
- `os.listdir`, `os.path.getmtime`, `datetime.fromtimestamp` and `datetime.now`: the listing is an `Option<seq<string>>` (None when it cannot be read); the modification date of each file and the date the clock shows while the i-th image is processed are abstract `CalendarDate` values in `Environment`, already converted to local time.
- `main` (watermark_tool.py:241-264): argument parsing, the existence checks on the directory and `sys.exit` are not modelled.
- Every `print` and `input`: the prompts read from finite sequences of answers.
- ParseExif: accepts only the canonical layout with every field written out in full in ASCII digits and one space; Python's `strptime` also accepts single-digit month, day, hour, minute and second fields, a space-padded day such as " 7", any run of whitespace between date and time, and non-ASCII decimal digits (which `int()` then reads).
- FormatDate: always writes four year digits; for years below 1000 `strftime("%Y")` is platform-dependent.
- ToLower: lower-cases the ASCII letters only, where `str.lower()` is Unicode-aware.
- PromptFontSize: how `int()` parses the typed text is not modelled (an answer is a number or None); the model stops when the answers run out, where the program would keep prompting or fail on end of input.
- PromptChoice: the same; the printed menu labels are data only.
- ProcessImages: the settings are an input, where the program prompts for them after finding images and before creating the output directory; `os.makedirs` is the flag `outputDirCreated`.
- Join: only the POSIX form of `os.path.join` with two components.
