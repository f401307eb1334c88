/**
 The scaffolder of the `modulemaker:make` command: `isModuleAlreadyExisting`,
 `createFile` and `createModule`.

 The file system is abstract: a set of directory paths and a map from file
 paths to contents. `file_exists` holds of either, `mkdir` adds a directory,
 and a file write either stores its content or, for a path in the `failing`
 set, fails and changes nothing (the source catches the exception and carries
 on). File contents keep only the identifiers the templates interpolate; the
 fixed template text is not modelled.
 */
module Scaffolder {
  import opened PhpString

  type Path = string

  /** The interpolated parts of the five templates. */
  datatype Content =
    | ModuleXml(moduleName: string)
      // the `name` attribute of `<module>`
    | ComposerJson(nameField: string, psr4Prefix: string, mapTarget: string)
      // the text after `"name": "`, the `psr-4` key and the second entry of `extra.map`
    | RegistrationPhp(copyrightHolder: string, componentName: string)
      // `copyrightHolder` is "" when the copyright lines are missing
    | LicenseMd(year: string, holder: string)
    | ReadmeMd(moduleName: string)

  /** The `['filename' => ..., 'content' => ...]` array handed to `createFile`. */
  datatype FileData = FileData(filename: string, content: Content)

  datatype FileSystem = FileSystem(dirs: set<Path>, files: map<Path, Content>)

  /** The result of `isModuleAlreadyExisting`: `ready` is its boolean, true when the module directory was created. */
  datatype Prepared = Prepared(ready: bool, fs: FileSystem)

  /** The result of `createModule`. */
  datatype Outcome = Outcome(created: bool, fs: FileSystem)

  /** `Magento\Framework\Module\Dir::MODULE_ETC_DIR`. */
  const ModuleEtcDir: string := "etc"

  /** `file_exists`: true of directories and of files. */
  predicate Exists(fs: FileSystem, p: Path)
  {
    p in fs.dirs || p in fs.files
  }

  function Mkdir(fs: FileSystem, p: Path): (r: FileSystem)
    ensures r.files == fs.files && r.dirs == fs.dirs + {p}
  {
    fs.(dirs := fs.dirs + {p})
  }

  function VendorPath(root: Path, vendorName: string): Path
  {
    root + "/app/code/" + vendorName
  }

  function ModulePath(root: Path, vendorName: string, moduleName: string): (p: Path)
    ensures p != VendorPath(root, vendorName)
  {
    VendorPath(root, vendorName) + "/" + moduleName
  }

  function EtcPath(root: Path, vendorName: string, moduleName: string): Path
  {
    ModulePath(root, vendorName, moduleName) + "/" + ModuleEtcDir
  }

  /** PHP truthiness of a string: everything but "" and "0". */
  predicate Truthy(s: string)
  {
    s != "" && s != "0"
  }

  /** The module identifier `Vendor_Module`. */
  function ModuleId(vendorName: string, moduleName: string): string
  {
    vendorName + "_" + moduleName
  }

  // ---------------------------------------------------------------------------
  // The five templates
  // ---------------------------------------------------------------------------

  function ModuleXmlFile(vendorName: string, moduleName: string): FileData
  {
    FileData("module.xml", ModuleXml(ModuleId(vendorName, moduleName)))
  }

  /** The `name` line closes with `,',` instead of `",`, so the emitted file is not valid JSON; the model keeps that text. */
  function ComposerJsonFile(vendorName: string, moduleName: string): FileData
  {
    FileData("composer.json",
      ComposerJson(Lower(vendorName) + "/" + Lower(moduleName) + ",',", vendorName + "\\" + moduleName + "\\", vendorName + "/" + moduleName))
  }

  /** The copyright lines appear only for a truthy author; otherwise `$copyright` is undefined and reads as "". */
  function RegistrationPhpFile(vendorName: string, moduleName: string, author: string): FileData
  {
    FileData("registration.php", RegistrationPhp(if Truthy(author) then author else "", ModuleId(vendorName, moduleName)))
  }

  function LicenseMdFile(year: string, author: string): FileData
  {
    FileData("license.md", LicenseMd(year, author))
  }

  function ReadmeMdFile(moduleName: string): FileData
  {
    FileData("README.md", ReadmeMd(moduleName))
  }

  // ---------------------------------------------------------------------------
  // The operations
  // ---------------------------------------------------------------------------

  /**
   `isModuleAlreadyExisting` (whose boolean, despite the name, is true when the
   module did NOT exist): create the vendor directory if it is missing, then
   either create the module directory and its `etc` subdirectory, or report
   that the module already exists. Files are never touched.
   */
  function PrepareModuleDir(fs: FileSystem, vendorPath: Path, fullPath: Path): (r: Prepared)
    ensures r.fs.files == fs.files
    ensures vendorPath != fullPath ==> (r.ready <==> !Exists(fs, fullPath))
    ensures r.ready ==> r.fs.dirs == fs.dirs + (if Exists(fs, vendorPath) then {} else {vendorPath})
                                             + {fullPath, fullPath + "/" + ModuleEtcDir}
    ensures !r.ready ==> r.fs.dirs == fs.dirs + (if Exists(fs, vendorPath) then {} else {vendorPath})
    ensures Exists(r.fs, vendorPath) && Exists(r.fs, fullPath)
  {
    var fs1 := if !Exists(fs, vendorPath) then Mkdir(fs, vendorPath) else fs;
    if !Exists(fs1, fullPath) then
      Prepared(true, Mkdir(Mkdir(fs1, fullPath), fullPath + "/" + ModuleEtcDir))
    else
      Prepared(false, fs1)
  }

  /** `createFile`: writes `dir/filename`; a failing write is reported with `false` and changes nothing. */
  function CreateFile(fs: FileSystem, failing: set<Path>, dir: Path, data: FileData): (r: (bool, FileSystem))
    ensures r.0 <==> dir + "/" + data.filename !in failing
    ensures r.1.dirs == fs.dirs
    ensures r.1.files.Keys == fs.files.Keys + (if r.0 then {dir + "/" + data.filename} else {})
    ensures forall p :: p in r.1.files && p != dir + "/" + data.filename ==> r.1.files[p] == fs.files[p]
    ensures r.0 ==> r.1.files[dir + "/" + data.filename] == data.content
  {
    var path := dir + "/" + data.filename;
    if path in failing then (false, fs)
    else (true, fs.(files := fs.files[path := data.content]))
  }

  /** The files after a write of `c` to `path` that fails exactly when `path` is in `failing`. */
  function Put(files: map<Path, Content>, failing: set<Path>, path: Path, c: Content): map<Path, Content>
  {
    if path in failing then files else files[path := c]
  }

  /** Proof aid: the files after `createFile` are those of `Put`. */
  lemma {:induction false} CreateFileIsPut(fs: FileSystem, failing: set<Path>, dir: Path, data: FileData)
    ensures CreateFile(fs, failing, dir, data).1.files == Put(fs.files, failing, dir + "/" + data.filename, data.content)
  {
  }

  /**
   `createModule`: prepare the directories, and if the module is new write
   `etc/module.xml`, `composer.json`, `registration.php`, `license.md` (only
   with the license flag) and `README.md`, in that order. The result is true
   whenever the module directory was new, even if some writes failed.
   */
  function CreateModule(fs: FileSystem, failing: set<Path>, root: Path,
                        vendorName: string, moduleName: string, author: string, license: bool, year: string): (r: Outcome)
    ensures r.created <==> !Exists(fs, ModulePath(root, vendorName, moduleName))
    ensures r.fs.dirs == fs.dirs + NewDirs(fs, root, vendorName, moduleName)
    ensures r.created ==> r.fs.files == fs.files + Written(failing, PlannedFiles(root, vendorName, moduleName, author, license, year))
    ensures !r.created ==> r.fs.files == fs.files
  {
    var vendorPath := VendorPath(root, vendorName);
    var fullPath := ModulePath(root, vendorName, moduleName);
    var prep := PrepareModuleDir(fs, vendorPath, fullPath);
    if !prep.ready then
      Outcome(false, prep.fs)
    else
      var fs1 := CreateFile(prep.fs, failing, fullPath + "/" + ModuleEtcDir, ModuleXmlFile(vendorName, moduleName)).1;
      var fs2 := CreateFile(fs1, failing, fullPath, ComposerJsonFile(vendorName, moduleName)).1;
      var fs3 := CreateFile(fs2, failing, fullPath, RegistrationPhpFile(vendorName, moduleName, author)).1;
      var fs4 := if license then CreateFile(fs3, failing, fullPath, LicenseMdFile(year, author)).1 else fs3;
      var fs5 := CreateFile(fs4, failing, fullPath, ReadmeMdFile(moduleName)).1;
      CreateModuleWritesPlan(prep.fs, failing, root, vendorName, moduleName, author, license, year);
      Outcome(true, fs5)
  }

  // ---------------------------------------------------------------------------
  // The declarative description of a run
  // ---------------------------------------------------------------------------

  /** The directories a run adds: the vendor directory if absent, and the module and `etc` directories if the module is new. */
  function NewDirs(fs: FileSystem, root: Path, vendorName: string, moduleName: string): set<Path>
  {
    (if Exists(fs, VendorPath(root, vendorName)) then {} else {VendorPath(root, vendorName)})
    + (if Exists(fs, ModulePath(root, vendorName, moduleName)) then {}
       else {ModulePath(root, vendorName, moduleName), EtcPath(root, vendorName, moduleName)})
  }

  /** Every file a successful run means to write, keyed by its full path, listed in write order. */
  function PlannedFiles(root: Path, vendorName: string, moduleName: string, author: string, license: bool, year: string)
    : map<Path, Content>
  {
    var m := ModulePath(root, vendorName, moduleName);
    var common := CommonPlan(m, vendorName, moduleName, author);
    (if license then common[m + "/license.md" := LicenseMd(year, author)] else common)[m + "/README.md" := ReadmeMd(moduleName)]
  }

  /** The three files every new module gets before the optional license, under module directory `m`. */
  function CommonPlan(m: Path, vendorName: string, moduleName: string, author: string): map<Path, Content>
  {
    map[m + "/etc/module.xml" := ModuleXml(ModuleId(vendorName, moduleName)),
        m + "/composer.json" := ComposerJsonFile(vendorName, moduleName).content,
        m + "/registration.php" := RegistrationPhpFile(vendorName, moduleName, author).content]
  }

  /** The planned files whose writes succeed. */
  function Written(failing: set<Path>, plan: map<Path, Content>): (w: map<Path, Content>)
    ensures w.Keys == plan.Keys - failing
    ensures forall p :: p in w ==> w[p] == plan[p]
  {
    map p | p in plan && p !in failing :: plan[p]
  }

  /** One more write on top of a partial run: the written part grows by that path unless it fails. */
  lemma {:induction false} PutExtendsWritten(files: map<Path, Content>, failing: set<Path>, plan: map<Path, Content>, path: Path, c: Content)
    requires path !in plan
    ensures Put(files + Written(failing, plan), failing, path, c) == files + Written(failing, plan[path := c])
  {
    var lhs := Put(files + Written(failing, plan), failing, path, c);
    var rhs := files + Written(failing, plan[path := c]);
    assert lhs.Keys == rhs.Keys;
    forall p | p in lhs
      ensures lhs[p] == rhs[p]
    {
    }
  }

  /** The five file paths under a module directory are pairwise distinct. */
  lemma {:induction false} PlannedPathsDistinct(m: Path)
    ensures m + "/etc/module.xml" !in {m + "/composer.json", m + "/registration.php", m + "/license.md", m + "/README.md"}
    ensures m + "/composer.json" !in {m + "/registration.php", m + "/license.md", m + "/README.md"}
    ensures m + "/registration.php" !in {m + "/license.md", m + "/README.md"}
    ensures m + "/license.md" != m + "/README.md"
  {
    // Their suffixes have five different lengths.
    assert |m + "/etc/module.xml"| == |m| + 15 && |m + "/composer.json"| == |m| + 14;
    assert |m + "/registration.php"| == |m| + 17 && |m + "/license.md"| == |m| + 11;
    assert |m + "/README.md"| == |m| + 10;
  }


  /**
   Proof aid: `createFile(dir, ['filename' => f, ...])` writes to `dir + "/" + f`,
   and for the templates these are the planned paths. Kept as a lemma so that the
   literal concatenations are proved in a small context.
   */
  lemma {:induction false} TemplatePaths(m: Path)
    ensures m + "/" + ModuleEtcDir + "/" + "module.xml" == m + "/etc/module.xml"
    ensures m + "/" + "composer.json" == m + "/composer.json"
    ensures m + "/" + "registration.php" == m + "/registration.php"
  {
  }

  /** The sequence of `createFile` calls stores exactly the planned files that do not fail, and nothing else. */
  lemma {:induction false} CreateModuleWritesPlan(fs: FileSystem, failing: set<Path>, root: Path,
                               vendorName: string, moduleName: string, author: string, license: bool, year: string)
    ensures var fullPath := ModulePath(root, vendorName, moduleName);
            var fs1 := CreateFile(fs, failing, fullPath + "/" + ModuleEtcDir, ModuleXmlFile(vendorName, moduleName)).1;
            var fs2 := CreateFile(fs1, failing, fullPath, ComposerJsonFile(vendorName, moduleName)).1;
            var fs3 := CreateFile(fs2, failing, fullPath, RegistrationPhpFile(vendorName, moduleName, author)).1;
            var fs4 := if license then CreateFile(fs3, failing, fullPath, LicenseMdFile(year, author)).1 else fs3;
            var fs5 := CreateFile(fs4, failing, fullPath, ReadmeMdFile(moduleName)).1;
            fs5.dirs == fs.dirs && fs5.files == fs.files + Written(failing, PlannedFiles(root, vendorName, moduleName, author, license, year))
  {
    var m := ModulePath(root, vendorName, moduleName);
    var fs1 := CreateFile(fs, failing, m + "/" + ModuleEtcDir, ModuleXmlFile(vendorName, moduleName)).1;
    var fs2 := CreateFile(fs1, failing, m, ComposerJsonFile(vendorName, moduleName)).1;
    var fs3 := CreateFile(fs2, failing, m, RegistrationPhpFile(vendorName, moduleName, author)).1;
    var fs4 := if license then CreateFile(fs3, failing, m, LicenseMdFile(year, author)).1 else fs3;
    var fs5 := CreateFile(fs4, failing, m, ReadmeMdFile(moduleName)).1;
    var F := fs.files;
    var p3 := CommonPlan(m, vendorName, moduleName, author);
    var p4 := if license then p3[m + "/license.md" := LicenseMd(year, author)] else p3;
    CommonWrites(fs, failing, m, vendorName, moduleName, author);
    PlannedPathsDistinct(m);
    assert fs4.files == F + Written(failing, p4) by {
      if license {
        assert m + "/" + "license.md" == m + "/license.md";
        CreateFileIsPut(fs3, failing, m, LicenseMdFile(year, author));
        PutExtendsWritten(F, failing, p3, m + "/license.md", LicenseMd(year, author));
      }
    }
    assert fs5.files == F + Written(failing, p4[m + "/README.md" := ReadmeMd(moduleName)]) by {
      assert m + "/" + "README.md" == m + "/README.md";
      CreateFileIsPut(fs4, failing, m, ReadmeMdFile(moduleName));
      PutExtendsWritten(F, failing, p4, m + "/README.md", ReadmeMd(moduleName));
    }
  }

  /** The first three `createFile` calls store the common plan's files whose writes succeed, and nothing else. */
  lemma {:induction false} CommonWrites(fs: FileSystem, failing: set<Path>, m: Path,
                                        vendorName: string, moduleName: string, author: string)
    ensures var fs1 := CreateFile(fs, failing, m + "/" + ModuleEtcDir, ModuleXmlFile(vendorName, moduleName)).1;
            var fs2 := CreateFile(fs1, failing, m, ComposerJsonFile(vendorName, moduleName)).1;
            var fs3 := CreateFile(fs2, failing, m, RegistrationPhpFile(vendorName, moduleName, author)).1;
            fs3.dirs == fs.dirs && fs3.files == fs.files + Written(failing, CommonPlan(m, vendorName, moduleName, author))
  {
    PlannedPathsDistinct(m);
    TemplatePaths(m);
    var xml, composer, registration := m + "/etc/module.xml", m + "/composer.json", m + "/registration.php";
    var fs1 := CreateFile(fs, failing, m + "/" + ModuleEtcDir, ModuleXmlFile(vendorName, moduleName)).1;
    var fs2 := CreateFile(fs1, failing, m, ComposerJsonFile(vendorName, moduleName)).1;
    var fs3 := CreateFile(fs2, failing, m, RegistrationPhpFile(vendorName, moduleName, author)).1;
    var F := fs.files;
    var p0: map<Path, Content> := map[];
    var p1 := p0[xml := ModuleXml(ModuleId(vendorName, moduleName))];
    var p2 := p1[composer := ComposerJsonFile(vendorName, moduleName).content];
    var p3 := p2[registration := RegistrationPhpFile(vendorName, moduleName, author).content];
    assert fs1.files == F + Written(failing, p1) by {
      assert F == F + Written(failing, p0);
      CreateFileIsPut(fs, failing, m + "/" + ModuleEtcDir, ModuleXmlFile(vendorName, moduleName));
      PutExtendsWritten(F, failing, p0, xml, p1[xml]);
    }
    assert fs2.files == F + Written(failing, p2) by {
      CreateFileIsPut(fs1, failing, m, ComposerJsonFile(vendorName, moduleName));
      PutExtendsWritten(F, failing, p1, composer, p2[composer]);
    }
    assert fs3.files == F + Written(failing, p3) by {
      CreateFileIsPut(fs2, failing, m, RegistrationPhpFile(vendorName, moduleName, author));
      PutExtendsWritten(F, failing, p2, registration, p3[registration]);
    }
    assert p3 == CommonPlan(m, vendorName, moduleName, author);
  }


  // ---------------------------------------------------------------------------
  // Properties of a run
  // ---------------------------------------------------------------------------

  /**
   An existing module directory makes the run fail without writing any file;
   the only possible change is the vendor directory created on the way.
   */
  lemma {:induction false} ExistingModuleWritesNothing(fs: FileSystem, failing: set<Path>, root: Path,
                                    vendorName: string, moduleName: string, author: string, license: bool, year: string)
    requires Exists(fs, ModulePath(root, vendorName, moduleName))
    ensures var r := CreateModule(fs, failing, root, vendorName, moduleName, author, license, year);
            && !r.created
            && r.fs.files == fs.files
            && r.fs.dirs == fs.dirs + (if Exists(fs, VendorPath(root, vendorName)) then {} else {VendorPath(root, vendorName)})
  {
  }

  /** Running `createModule` a second time with the same names returns false and leaves the file system as the first run left it. */
  lemma {:induction false} SecondRunIsNoop(fs: FileSystem, failing: set<Path>, root: Path,
                        vendorName: string, moduleName: string, author: string, license: bool, year: string,
                        failing2: set<Path>, author2: string, license2: bool, year2: string)
    ensures var r1 := CreateModule(fs, failing, root, vendorName, moduleName, author, license, year);
            var r2 := CreateModule(r1.fs, failing2, root, vendorName, moduleName, author2, license2, year2);
            !r2.created && r2.fs == r1.fs
  {
    var r1 := CreateModule(fs, failing, root, vendorName, moduleName, author, license, year);
    assert Exists(r1.fs, VendorPath(root, vendorName));
    assert Exists(r1.fs, ModulePath(root, vendorName, moduleName));
  }

  /** The planned paths: the four fixed files, and `license.md` exactly when the license flag is set. */
  lemma {:induction false} PlannedKeys(root: Path, vendorName: string, moduleName: string, author: string, license: bool, year: string)
    ensures var m := ModulePath(root, vendorName, moduleName);
            PlannedFiles(root, vendorName, moduleName, author, license, year).Keys
            == {m + "/etc/module.xml", m + "/composer.json", m + "/registration.php", m + "/README.md"}
               + (if license then {m + "/license.md"} else {})
  {
  }

  /**
   A new module gets exactly the planned files, minus failed writes:
   `etc/module.xml`, `composer.json`, `registration.php`, `README.md`, and
   `license.md` exactly when the license flag is set. Every other file keeps
   its contents.
   */
  lemma {:induction false} NewModuleFiles(fs: FileSystem, failing: set<Path>, root: Path,
                       vendorName: string, moduleName: string, author: string, license: bool, year: string, p: Path)
    requires !Exists(fs, ModulePath(root, vendorName, moduleName))
    ensures var r := CreateModule(fs, failing, root, vendorName, moduleName, author, license, year);
            var m := ModulePath(root, vendorName, moduleName);
            var planned := p == m + "/etc/module.xml" || p == m + "/composer.json" || p == m + "/registration.php"
                           || p == m + "/README.md" || (license && p == m + "/license.md");
            && r.created
            && (p in r.fs.files <==> (p in fs.files || (planned && p !in failing)))
            && (p in fs.files && !planned ==> r.fs.files[p] == fs.files[p])
  {
    var r := CreateModule(fs, failing, root, vendorName, moduleName, author, license, year);
    var plan := PlannedFiles(root, vendorName, moduleName, author, license, year);
    var w := Written(failing, plan);
    assert r.fs.files == fs.files + w;
    assert p in r.fs.files <==> p in fs.files || (p in plan && p !in failing);
    var m := ModulePath(root, vendorName, moduleName);
    var planned := p == m + "/etc/module.xml" || p == m + "/composer.json" || p == m + "/registration.php"
                   || p == m + "/README.md" || (license && p == m + "/license.md");
    assert p in plan <==> planned by {
      PlannedKeys(root, vendorName, moduleName, author, license, year);
    }
    if p in fs.files && !planned {
      assert p !in w;
      assert r.fs.files[p] == fs.files[p];
    }
  }

  /** A new module gets its own directory and `etc`, plus the vendor directory when that was missing. */
  lemma {:induction false} NewModuleDirs(fs: FileSystem, failing: set<Path>, root: Path,
                      vendorName: string, moduleName: string, author: string, license: bool, year: string)
    requires !Exists(fs, ModulePath(root, vendorName, moduleName))
    ensures var r := CreateModule(fs, failing, root, vendorName, moduleName, author, license, year);
            var m := ModulePath(root, vendorName, moduleName);
            var v := VendorPath(root, vendorName);
            r.fs.dirs == fs.dirs + {m, m + "/etc"} + (if Exists(fs, v) then {} else {v})
  {
    var m := ModulePath(root, vendorName, moduleName);
    assert EtcPath(root, vendorName, moduleName) == m + "/etc";
  }

  /**
   The identifiers the templates interpolate: `module.xml` and
   `registration.php` name the module `Vendor_Module`, the `composer.json`
   package name starts with `vendor/module` in lower case, and the license
   names the author.
   */
  lemma {:induction false} NewModuleIdentifiers(fs: FileSystem, failing: set<Path>, root: Path,
                             vendorName: string, moduleName: string, author: string, license: bool, year: string)
    requires !Exists(fs, ModulePath(root, vendorName, moduleName))
    ensures var r := CreateModule(fs, failing, root, vendorName, moduleName, author, license, year);
            var m := ModulePath(root, vendorName, moduleName);
            && (m + "/etc/module.xml" !in failing ==>
                  m + "/etc/module.xml" in r.fs.files
                  && r.fs.files[m + "/etc/module.xml"] == ModuleXml(vendorName + "_" + moduleName))
            && (m + "/registration.php" !in failing ==>
                  m + "/registration.php" in r.fs.files
                  && r.fs.files[m + "/registration.php"].RegistrationPhp?
                  && r.fs.files[m + "/registration.php"].componentName == vendorName + "_" + moduleName)
            && (m + "/composer.json" !in failing ==>
                  m + "/composer.json" in r.fs.files
                  && r.fs.files[m + "/composer.json"].ComposerJson?
                  && var name := r.fs.files[m + "/composer.json"].nameField;
                     var prefix := Lower(vendorName) + "/" + Lower(moduleName);
                     |prefix| <= |name| && name[..|prefix|] == prefix)
            && (license && m + "/license.md" !in failing ==>
                  m + "/license.md" in r.fs.files
                  && r.fs.files[m + "/license.md"] == LicenseMd(year, author))
  {
    var m := ModulePath(root, vendorName, moduleName);
    var plan := PlannedFiles(root, vendorName, moduleName, author, license, year);
    PlannedPathsDistinct(m);
    PlannedKeys(root, vendorName, moduleName, author, license, year);
    assert plan[m + "/etc/module.xml"] == ModuleXml(vendorName + "_" + moduleName);
    assert plan[m + "/registration.php"].componentName == vendorName + "_" + moduleName;
    assert license ==> plan[m + "/license.md"] == LicenseMd(year, author);
    var prefix := Lower(vendorName) + "/" + Lower(moduleName);
    assert plan[m + "/composer.json"].nameField == prefix + ",',";
    assert (prefix + ",',")[..|prefix|] == prefix;
  }
}
