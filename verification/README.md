# MageDeX ModuleMaker — a Dafny model of `modulemaker:make`

`modulemaker:make` is a Magento 2 console command. It asks for a vendor name, a
module name and an author name. It sanitises the two names into PSR-style
identifiers and asks whether to add an MIT license. It then creates
`app/code/<Vendor>/<Module>` with an `etc` directory and writes `etc/module.xml`,
`composer.json`, `registration.php`, an optional `license.md` and `README.md`.

The model has five modules, one per concern of the command:

- `PhpString` (`php_string.dfy`): the byte-level PHP built-ins the command uses:
  the `[a-zA-Z]` class, `trim`, `strtolower`, and ASCII `toupper`/`tolower`.
- `NameSanitizer` (`name_sanitizer.dfy`): `cleanModuleName` as its six stages
  (`trim`, `str_replace` of the separators, `preg_replace` of non-letters,
  `ucwords`, removing spaces, `ucfirst`). It is proved equal to an independent
  one-pass reference, `PascalCase`, which keeps the ASCII letters in order and
  upper-cases each one that starts a word.
- `LicensePrompt` (`license_prompt.dfy`): the `[Y/n]` license decision.
- `Scaffolder` (`scaffolder.dfy`): `isModuleAlreadyExisting`, `createFile` and
  `createModule` over an abstract file system. The file system is a set of
  directory paths plus a map from file paths to contents. A write to a path in a
  `failing` set raises, is caught, and changes nothing.
- `MakeCommand` (`make_command.dfy`): the body of `execute` after the prompts.

The sanitiser turns the remaining non-letters into spaces rather than removing
them (Make.php:133), so a letter after a digit starts a new word: `a1b` becomes
`AB`, not `Ab`. `CleanCapitalisesWordStarts` states exactly this.

## Model

| member | source | states |
|---|---|---|
| PhpString.Trim | MageDeX/ModuleMaker/Console/Command/Make.php:131 | A non-empty result of `trim` neither starts nor ends with space, tab, newline, carriage return, NUL or vertical tab. `TrimKeepsInfix` states that it is a contiguous piece of the input. The same `trim` is applied to every answer read at lines 64, 75, 86 and 93. |
| PhpString.Lower | MageDeX/ModuleMaker/Console/Command/Make.php:94 | `strtolower` keeps the length and maps each character to its small letter when it is `A`..`Z`, leaving every other character alone. It is also used for the `composer.json` name at line 176. |
| NameSanitizer.ReplaceSeparators | MageDeX/ModuleMaker/Console/Command/Make.php:132 | Same length. Each of `- _ . : !` becomes a space and every other character stays as it is. |
| NameSanitizer.ReplaceNonLetters | MageDeX/ModuleMaker/Console/Command/Make.php:133 | Same length. Every character outside `[a-zA-Z]` becomes a space and every letter stays as it is. |
| NameSanitizer.UcWords | MageDeX/ModuleMaker/Console/Command/Make.php:134 | Same length. The first character, and each character after a space, tab, carriage return, newline, form feed or vertical tab, is upper-cased. Every other character stays as it is. |
| NameSanitizer.RemoveSpaces | MageDeX/ModuleMaker/Console/Command/Make.php:135 | No space is left, and every other character keeps its number of occurrences. That the kept characters also keep their order is `RemoveSpacesKeepsOrder`. |
| NameSanitizer.RemoveSpacesKeepsOrder | MageDeX/ModuleMaker/Console/Command/Make.php:135 | A single character is dropped exactly when it is a space, and the result for `a + b` is the result for `a` followed by the result for `b`. So every other character is kept in its original order. |
| NameSanitizer.UcFirst | MageDeX/ModuleMaker/Console/Command/Make.php:136 | Same length. Only the first character is upper-cased and the rest is unchanged. |
| NameSanitizer.CleanModuleName | MageDeX/ModuleMaker/Console/Command/Make.php:129-139 | The output contains only ASCII letters, and as many as the input has. A non-empty output starts with a capital. The output equals the reference `PascalCase` of the raw input. |
| NameSanitizer.PipelineMatchesReference | MageDeX/ModuleMaker/Console/Command/Make.php:131-136 | The six stages composed in source order (trim, separators to spaces, non-letters to spaces, ucwords, remove spaces, ucfirst) compute the one-pass reference for every input. |
| NameSanitizer.SeparatorsSubsumedByLetterFilter | MageDeX/ModuleMaker/Console/Command/Make.php:132-133 | Replacing `- _ . : !` before the non-letter replacement makes no difference to its result. |
| NameSanitizer.CleanEmptyIffNoLetters | MageDeX/ModuleMaker/Console/Command/Make.php:131-135 | The sanitised name is empty if and only if the input has no ASCII letter, e.g. empty, blanks, digits or separators only. |
| NameSanitizer.CleanKeepsLettersInOrder | MageDeX/ModuleMaker/Console/Command/Make.php:132-136 | Up to case, the output is exactly the input's letters in their original order. |
| NameSanitizer.CleanCapitalisesWordStarts | MageDeX/ModuleMaker/Console/Command/Make.php:132-136 | The letter at input index `i` becomes output position `CountLetters(value[..i])`. It is upper-cased if it starts a word (index 0, or after a non-letter) and is unchanged otherwise. |
| NameSanitizer.CleanIdempotent | MageDeX/ModuleMaker/Console/Command/Make.php:129-139 | Sanitising a sanitised name returns it unchanged. |
| NameSanitizer.PascalAppend | MageDeX/ModuleMaker/Console/Command/Make.php:133-136 | Sanitising works piecewise on a concatenation. The second piece starts a word exactly when the first piece ends in a non-letter, or when the first piece is empty and the whole starts a word. |
| NameSanitizer.CleanExamples | MageDeX/ModuleMaker/Console/Command/Make.php:129-139 | `my-shop` gives `MyShop` and `cool_widget` gives `CoolWidget`. |
| PhpString.TrimLeftIsSuffix | MageDeX/ModuleMaker/Console/Command/Make.php:131 | The left half of `trim` keeps a suffix of its input. Every character it drops is trimmable. |
| PhpString.TrimRightIsPrefix | MageDeX/ModuleMaker/Console/Command/Make.php:131 | The right half of `trim` keeps a prefix that does not end in a trimmable character. Every character it drops is trimmable. |
| PhpString.TrimKeepsInfix | MageDeX/ModuleMaker/Console/Command/Make.php:131 | `trim` keeps a contiguous piece of its input and removes only space, tab, newline, carriage return, NUL and vertical tab. |
| LicensePrompt.LicenseFlag | MageDeX/ModuleMaker/Console/Command/Make.php:89-101 | The flag can only be set when an author name was given. |
| LicensePrompt.LicenseFlagIff | MageDeX/ModuleMaker/Console/Command/Make.php:89-101 | The flag is set exactly when the author is non-empty and the trimmed answer is empty, or is `y` or `yes` in any mix of case. Every other answer leaves it unset. |
| LicensePrompt.BlankAnswerAccepts | MageDeX/ModuleMaker/Console/Command/Make.php:93-98 | With an author, an empty or all-blank answer accepts the default and adds the license. |
| Scaffolder.PrepareModuleDir | MageDeX/ModuleMaker/Console/Command/Make.php:265-285 | Files never change. The vendor directory is added when missing. The result is true exactly when the module path did not exist, and then the module and `etc` directories are added. Afterwards both the vendor and module paths exist. |
| Scaffolder.CreateFile | MageDeX/ModuleMaker/Console/Command/Make.php:287-298 | The result is true exactly when the write does not fail. On success `dir/filename` holds the content. Directories and every other file stay as they were. |
| Scaffolder.CreateModule | MageDeX/ModuleMaker/Console/Command/Make.php:146-258 | The result is true exactly when the module directory did not exist, even if writes fail (paths compared as strings; see Left out). The new directories are the missing vendor directory, plus the module and `etc` directories when the module is new. The files become the old files plus the non-failing planned files when the module is new, and are unchanged otherwise. |
| Scaffolder.CreateModuleWritesPlan | MageDeX/ModuleMaker/Console/Command/Make.php:162-252 | The source's sequence of `createFile` calls leaves the directories alone. It stores exactly the old files overridden by the planned files whose writes succeed. |
| Scaffolder.ExistingModuleWritesNothing | MageDeX/ModuleMaker/Console/Command/Make.php:277-283 | If the module directory exists, the run returns false and writes no file. The only possible change is the vendor directory it creates. |
| Scaffolder.SecondRunIsNoop | MageDeX/ModuleMaker/Console/Command/Make.php:154-161 | A second `createModule` with the same vendor and module names returns false and leaves the file system exactly as the first run left it. |
| Scaffolder.PlannedKeys | MageDeX/ModuleMaker/Console/Command/Make.php:162-252 | The planned paths are `etc/module.xml`, `composer.json`, `registration.php` and `README.md` under the module directory, plus `license.md` exactly when the flag is set. |
| Scaffolder.NewModuleFiles | MageDeX/ModuleMaker/Console/Command/Make.php:162-254 | For a new module, a path holds a file afterwards exactly when it held one before, or it is one of the four fixed files (or `license.md` with the flag) and its write did not fail. Every unplanned file keeps its contents. |
| Scaffolder.NewModuleDirs | MageDeX/ModuleMaker/Console/Command/Make.php:271-279 | A new module adds the module directory and its `etc` directory, plus the vendor directory when that was missing. |
| Scaffolder.NewModuleIdentifiers | MageDeX/ModuleMaker/Console/Command/Make.php:163-241 | `module.xml` and `registration.php` carry `Vendor_Module`. The `composer.json` name starts with `lower(vendor)/lower(module)`. `license.md` carries the year and the author. |
| MakeCommand.Execute | MageDeX/ModuleMaker/Console/Command/Make.php:67-105 | Both names are sanitised to letters only. The run succeeds exactly when the sanitised module directory was absent (paths compared as strings; see Left out). The directories grow by exactly the new vendor, module and `etc` directories. |
| MakeCommand.ExecuteTwiceIsNoop | MageDeX/ModuleMaker/Console/Command/Make.php:103-105 | Repeating the command with the same vendor and module names, whatever the author or answer, reports failure and changes nothing. |
| MakeCommand.ExecuteLicenseFile | MageDeX/ModuleMaker/Console/Command/Make.php:227-242 | On a new module, `license.md` appears exactly when an author was given, the answer accepts, and the write did not fail. It then names the year and the author. |
| MakeCommand.ExecuteModuleId | MageDeX/ModuleMaker/Console/Command/Make.php:163-225 | On a new module, `module.xml` and `registration.php` name it `V_M` from the sanitised names. That identifier is ASCII letters everywhere except one underscore after the vendor part. |
| MakeCommand.ExecuteExample | MageDeX/ModuleMaker/Console/Command/Make.php:67-105 | Inputs `my-shop` and `cool_widget` create `app/code/MyShop/CoolWidget` with `etc/module.xml` naming `MyShop_CoolWidget`. |

## Left out

- Prompting: the `while (!$name)` loops, `fopen`/`fgets` on standard input and the
  `InputArgument` wiring are I/O. The three names and the license answer are
  parameters. PHP falsiness of `"0"` in those loops is therefore not modelled.
- Console output is not modelled. This covers the "has been modified" notes, the
  second of which is mislabelled and compares against the wrong variable. It also
  covers the vendor path echo, the "already exists" line, the echoed exception
  messages and the closing "Please welcome" line.
- Magento's `DirectoryList`, `WriteFactory` and `DriverPool` are foreign
  framework calls. The application root is a parameter. A write either stores
  the file or fails and changes nothing. Partial writes, and directories the
  Magento writer might create itself, are not modelled.
- Scaffolder.CreateModule: paths are compared as strings, so a module name that
  sanitises to `""` gives `<vendor>/` and a vendor name that sanitises to `""`
  gives `app/code//<module>`. The source's `file_exists` resolves these to the
  vendor directory and to `app/code/<module>`. For a letterless module name it
  therefore always reports "already exists", while the model creates the module
  when `<vendor>/` is absent. The model does not normalise paths.
- MakeCommand.Execute: inherits the point above. A module name with no ASCII
  letter (such as `123` or `!!!`) always fails in the source, while the model
  succeeds when the string path is absent. A letterless vendor name is compared
  against `app/code//<module>`, not against `app/code/<module>`.
- `mkdir` and `file_exists` act on the abstract state. `mkdir` always adds the
  path. Its need for an existing parent directory, and its warning on failure,
  are not modelled. Paths are plain strings, so `a/b/` and `a/b` count as
  different paths (an empty sanitised module name gives such a path).
- `date("Y")` reads the clock. The year is an opaque string parameter.
- The fixed template text is not modelled. Each file's content keeps only the
  identifiers it interpolates, which is why no claim is made that
  `composer.json` is valid JSON. The emitted `name` line ends in `,',` instead of
  `",`, and the model keeps that text in `nameField`.
- `$copyright` is undefined when the author is empty or `"0"`, because of PHP
  truthiness. The model reads it as the empty string and ignores the notice
  (PHP 7) or warning (PHP 8) that PHP raises when reading it.
- Multibyte and Unicode letters: the regular expression works on bytes. Only
  `[a-zA-Z]` counts as a letter, and `toupper`/`tolower` touch only ASCII.
- `createFile`'s boolean result is computed but, as in the source, `createModule`
  ignores it.
