/**
 The `modulemaker:make` command end to end, once its three names and the
 license answer have been read: sanitise the vendor and module names, decide
 the license flag, and run the scaffolder.

 Prompting on standard input, the console messages and the Magento services
 that locate the application root are I/O; the root, the answers, the current
 year and the set of failing writes are parameters.
 */
module MakeCommand {
  import opened PhpString
  import opened NameSanitizer
  import opened LicensePrompt
  import opened Scaffolder

  /**
   The body of `execute` after the prompts. A module directory is created only
   under sanitised names, and the run succeeds exactly when that directory did
   not exist yet.
   */
  function Execute(fs: FileSystem, failing: set<Path>, root: Path,
                   vendorName: string, moduleName: string, authorName: string, answer: string, year: string): (r: Outcome)
    ensures var v := CleanModuleName(vendorName);
            var m := CleanModuleName(moduleName);
            && (r.created <==> !Exists(fs, ModulePath(root, v, m)))
            && (forall i :: 0 <= i < |v| ==> IsAsciiLetter(v[i]))
            && (forall i :: 0 <= i < |m| ==> IsAsciiLetter(m[i]))
            && r.fs.dirs == fs.dirs + NewDirs(fs, root, v, m)
  {
    var correctedVendorName := CleanModuleName(vendorName);
    var correctedModuleName := CleanModuleName(moduleName);
    var license := LicenseFlag(authorName, answer);
    CreateModule(fs, failing, root, correctedVendorName, correctedModuleName, authorName, license, year)
  }

  /** Running the command a second time with the same vendor and module names reports failure and changes nothing. */
  lemma {:induction false} ExecuteTwiceIsNoop(fs: FileSystem, failing: set<Path>, root: Path,
                           vendorName: string, moduleName: string, authorName: string, answer: string, year: string,
                           failing2: set<Path>, authorName2: string, answer2: string, year2: string)
    ensures var r1 := Execute(fs, failing, root, vendorName, moduleName, authorName, answer, year);
            var r2 := Execute(r1.fs, failing2, root, vendorName, moduleName, authorName2, answer2, year2);
            !r2.created && r2.fs == r1.fs
  {
    SecondRunIsNoop(fs, failing, root, CleanModuleName(vendorName), CleanModuleName(moduleName),
                    authorName, LicenseFlag(authorName, answer), year,
                    failing2, authorName2, LicenseFlag(authorName2, answer2), year2);
  }

  /**
   On a new module, `license.md` is written exactly when an author was given
   and the answer was empty, `y` or `yes` in any case (and the write did not
   fail); when written it names the year and the author.
   */
  lemma {:induction false} ExecuteLicenseFile(fs: FileSystem, failing: set<Path>, root: Path,
                           vendorName: string, moduleName: string, authorName: string, answer: string, year: string)
    requires !Exists(fs, ModulePath(root, CleanModuleName(vendorName), CleanModuleName(moduleName)))
    ensures var r := Execute(fs, failing, root, vendorName, moduleName, authorName, answer, year);
            var path := ModulePath(root, CleanModuleName(vendorName), CleanModuleName(moduleName)) + "/license.md";
            && r.created
            && (path !in fs.files ==>
                  (path in r.fs.files <==> authorName != "" && IsYes(Trim(answer)) && path !in failing))
            && (authorName != "" && IsYes(Trim(answer)) && path !in failing ==>
                  r.fs.files[path] == LicenseMd(year, authorName))
  {
    var v := CleanModuleName(vendorName);
    var m := CleanModuleName(moduleName);
    var license := LicenseFlag(authorName, answer);
    var path := ModulePath(root, v, m) + "/license.md";
    LicenseFlagIff(authorName, answer);
    NewModuleFiles(fs, failing, root, v, m, authorName, license, year, path);
    NewModuleIdentifiers(fs, failing, root, v, m, authorName, license, year);
    PlannedPathsDistinct(ModulePath(root, v, m));
  }

  /**
   On a new module, `module.xml` and `registration.php` name it
   `Vendor_Module` from the sanitised names: letters only on both sides of
   the one underscore.
   */
  lemma {:induction false} ExecuteModuleId(fs: FileSystem, failing: set<Path>, root: Path,
                        vendorName: string, moduleName: string, authorName: string, answer: string, year: string)
    requires !Exists(fs, ModulePath(root, CleanModuleName(vendorName), CleanModuleName(moduleName)))
    ensures var r := Execute(fs, failing, root, vendorName, moduleName, authorName, answer, year);
            var v := CleanModuleName(vendorName);
            var m := CleanModuleName(moduleName);
            var dir := ModulePath(root, v, m);
            && (dir + "/etc/module.xml" !in failing ==>
                  dir + "/etc/module.xml" in r.fs.files
                  && r.fs.files[dir + "/etc/module.xml"] == ModuleXml(v + "_" + m))
            && (dir + "/registration.php" !in failing ==>
                  dir + "/registration.php" in r.fs.files
                  && r.fs.files[dir + "/registration.php"].RegistrationPhp?
                  && r.fs.files[dir + "/registration.php"].componentName == v + "_" + m)
            && (forall i :: 0 <= i < |v + "_" + m| ==> (IsAsciiLetter((v + "_" + m)[i]) <==> i != |v|))
  {
    var v := CleanModuleName(vendorName);
    var m := CleanModuleName(moduleName);
    NewModuleIdentifiers(fs, failing, root, v, m, authorName, LicenseFlag(authorName, answer), year);
    IdentifierLetters(v, m);
  }

  /** Joining two letter-only names with `_` gives an identifier whose only non-letter is that underscore. */
  lemma {:induction false} IdentifierLetters(v: string, m: string)
    requires forall i :: 0 <= i < |v| ==> IsAsciiLetter(v[i])
    requires forall i :: 0 <= i < |m| ==> IsAsciiLetter(m[i])
    ensures forall i :: 0 <= i < |v + "_" + m| ==> (IsAsciiLetter((v + "_" + m)[i]) <==> i != |v|)
  {
    var id := v + "_" + m;
    forall i | 0 <= i < |id|
      ensures IsAsciiLetter(id[i]) <==> i != |v|
    {
      if i < |v| {
        assert id[i] == v[i];
      } else if i > |v| {
        assert id[i] == m[i - |v| - 1];
      }
    }
  }


  /**
   The worked example end to end: `my-shop` and `cool_widget` give
   `MyShop_CoolWidget` in `app/code/MyShop/CoolWidget`. The names are parameters
   fixed by `requires` so that the verifier does not unfold the sanitiser on
   literals.
   */
  lemma {:induction false} ExecuteExample(fs: FileSystem, failing: set<Path>, root: Path,
                       vendorName: string, moduleName: string, authorName: string, answer: string, year: string)
    requires vendorName == "my-shop" && moduleName == "cool_widget"
    requires !Exists(fs, root + "/app/code/MyShop/CoolWidget")
    requires root + "/app/code/MyShop/CoolWidget/etc/module.xml" !in failing
    ensures var r := Execute(fs, failing, root, vendorName, moduleName, authorName, answer, year);
            && r.created
            && root + "/app/code/MyShop/CoolWidget" in r.fs.dirs
            && root + "/app/code/MyShop/CoolWidget/etc/module.xml" in r.fs.files
            && r.fs.files[root + "/app/code/MyShop/CoolWidget/etc/module.xml"] == ModuleXml("MyShop_CoolWidget")
  {
    var v, m := CleanModuleName(vendorName), CleanModuleName(moduleName);
    assert v == "MyShop" && m == "CoolWidget" by {
      CleanExamples(vendorName, moduleName);
    }
    ExamplePath(root);
    var dir := ModulePath(root, v, m);
    var xml := root + "/app/code/MyShop/CoolWidget/etc/module.xml";
    assert dir + "/etc/module.xml" == xml;
    ExecuteModuleId(fs, failing, root, vendorName, moduleName, authorName, answer, year);
    var r := Execute(fs, failing, root, vendorName, moduleName, authorName, answer, year);
    assert xml in r.fs.files && r.fs.files[xml] == ModuleXml(v + "_" + m);
    NewModuleDirs(fs, failing, root, v, m, authorName, LicenseFlag(authorName, answer), year);
  }

  /**
   Proof aid: the worked example's paths and identifier spelled out. Kept as a
   lemma so that the literal concatenations are proved in a small context.
   */
  lemma {:induction false} ExamplePath(root: Path)
    ensures ModulePath(root, "MyShop", "CoolWidget") == root + "/app/code/MyShop/CoolWidget"
    ensures ModulePath(root, "MyShop", "CoolWidget") + "/etc/module.xml"
            == root + "/app/code/MyShop/CoolWidget/etc/module.xml"
    ensures "MyShop" + "_" + "CoolWidget" == "MyShop_CoolWidget"
  {
  }
}
