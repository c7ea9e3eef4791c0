/**
 * The Gradle plugin's JS compilation (`KotlinJsCompilation`): the npm project name built from the
 * root project, the project, the target and the compilation, and the resolved npm package that
 * can be read only once npm resolution has run.
 */
module NpmProjectName {
  import opened Wrappers
  import Text

  /** `KotlinCompilation.MAIN_COMPILATION_NAME`. */
  const MAIN_COMPILATION_NAME: string := "main"

  /** The Gradle project the compilation belongs to, with its root project's name. */
  datatype ProjectInfo = ProjectInfo(rootProjectName: string, isRootProject: bool, name: string)

  /** Whether the target's name is added: it is non-empty and is not "js" in any letter case. */
  predicate TargetNameShown(targetName: string)
  {
    targetName != [] && Text.ToLower(targetName) != "js"
  }

  /** The components of the npm project name, in their fixed order. */
  function NameParts(project: ProjectInfo, targetName: string, compilationName: string): (r: seq<string>)
    ensures |r| >= 1 && r[0] == project.rootProjectName
  {
    [project.rootProjectName]
      + (if !project.isRootProject then [project.name] else [])
      + (if TargetNameShown(targetName) then [targetName] else [])
      + (if compilationName != MAIN_COMPILATION_NAME then [compilationName] else [])
  }

  /** The name the string builder produces: the components joined by "-". */
  function NpmName(project: ProjectInfo, targetName: string, compilationName: string): (r: string)
    ensures project.rootProjectName <= r
    ensures !project.isRootProject ==> |r| > |project.rootProjectName|
  {
    var parts := NameParts(project, targetName, compilationName);
    JoinStartsWithFirst(parts, "-");
    Text.Join(parts, "-")
  }

  /**
   * `buildNpmProjectName()`: the root project's name, then "-" and the project's name unless it is
   * the root, "-" and the target's name when shown, "-" and the compilation's name unless it is "main".
   */
  method BuildNpmProjectName(project: ProjectInfo, targetName: string, compilationName: string) returns (name: string)
    ensures name == NpmName(project, targetName, compilationName)
  {
    ghost var parts := [project.rootProjectName];
    name := project.rootProjectName;
    if !project.isRootProject {
      name := name + "-";
      name := name + project.name;
      Text.JoinSnoc(parts, project.name, "-");
      parts := parts + [project.name];
    }
    if TargetNameShown(targetName) {
      name := name + "-" + targetName;
      Text.JoinSnoc(parts, targetName, "-");
      parts := parts + [targetName];
    }
    if compilationName != MAIN_COMPILATION_NAME {
      name := name + "-" + compilationName;
      Text.JoinSnoc(parts, compilationName, "-");
      parts := parts + [compilationName];
    }
    assert parts == NameParts(project, targetName, compilationName);
  }

  /**
   * The name starts with the root project's name, and it is exactly that name when the project is
   * the root, the target's name is not shown and the compilation is the main one.
   */
  lemma {:induction false} NpmNameSpec(project: ProjectInfo, targetName: string, compilationName: string)
    ensures project.rootProjectName <= NpmName(project, targetName, compilationName)
    ensures NpmName(project, targetName, compilationName) == project.rootProjectName <==>
      (project.isRootProject && !TargetNameShown(targetName) && compilationName == MAIN_COMPILATION_NAME)
  {
    var parts := NameParts(project, targetName, compilationName);
    JoinStartsWithFirst(parts, "-");
    if |parts| > 1 {
      assert Text.Join(parts, "-") == parts[0] + "-" + Text.Join(parts[1..], "-");
    }
  }

  /** A join starts with its first part, and is longer than it when there are more parts. */
  lemma JoinStartsWithFirst(parts: seq<string>, sep: string)
    requires |parts| >= 1
    ensures parts[0] <= Text.Join(parts, sep)
    ensures |parts| > 1 && sep != "" ==> |Text.Join(parts, sep)| > |parts[0]|
  {
    if |parts| > 1 {
      assert Text.Join(parts, sep) == parts[0] + (sep + Text.Join(parts[1..], sep));
    }
  }

  /** A non-root project's compilation for the "js" target and the main compilation: "root-project". */
  lemma SubprojectName(root: string, name: string)
    ensures NpmName(ProjectInfo(root, false, name), "js", "main") == root + "-" + name
  {
    assert Text.ToLower("js") == "js";
    var parts := NameParts(ProjectInfo(root, false, name), "js", "main");
    assert parts == [root, name];
    assert parts[1..] == [name];
  }

  /** An opaque resolved npm package. */
  datatype NpmProjectPackage = NpmProjectPackage(id: nat)

  class KotlinJsCompilation {
    var packageName: string
    var resolvedNpmPackage: Option<NpmProjectPackage>

    /** A fresh compilation: its package name is the npm project name, and no package is resolved yet. */
    constructor(project: ProjectInfo, targetName: string, compilationName: string)
      ensures packageName == NpmName(project, targetName, compilationName)
      ensures resolvedNpmPackage == None
    {
      var name := BuildNpmProjectName(project, targetName, compilationName);
      packageName := name;
      resolvedNpmPackage := None;
    }

    /**
     * Setting `packageName`: npm resolution is asked first whether the project may still change
     * (`modificationAllowed`); when it may not, the setter throws and nothing changes.
     */
    method SetPackageName(value: string, modificationAllowed: bool) returns (r: Result<()>)
      modifies this
      ensures r.Err? <==> !modificationAllowed
      ensures r.Ok? ==> packageName == value && resolvedNpmPackage == old(resolvedNpmPackage)
      ensures r.Err? ==> unchanged(this)
    {
      if !modificationAllowed {
        return Err("IllegalStateException");
      }
      packageName := value;
      r := Ok(());
    }

    /** `npmPackage`: the resolved package, an error before npm resolution has run. */
    method NpmPackage() returns (r: Result<NpmProjectPackage>)
      ensures r.Err? <==> resolvedNpmPackage.None?
      ensures r.Ok? ==> r.value == resolvedNpmPackage.value
    {
      match resolvedNpmPackage
      case None => r := Err("This property accessible only after NpmResolve task execution");
      case Some(p) => r := Ok(p);
    }
  }
}
