/**
 * The static registry (getProjectModules): each module the include check
 * knows, with the commands whose use shows that the module is needed.
 */
module ModuleRegistry {

  datatype ModuleRule = ModuleRule(name: string, commands: seq<string>)

  /**
   * The registry, in the script's order. Every name and command holds only
   * letters, digits, `_`, `:` and `/`, so the script's patterns built from
   * them match them literally.
   */
  function ProjectModules(): (rules: seq<ModuleRule>)
    ensures |rules| == 39
    ensures forall i :: 0 <= i < |rules| ==> rules[i].commands != []
  {
    [
      ModuleRule("CheckCCompilerFlag", ["check_c_compiler_flag"]),
      ModuleRule("CheckCompilerFlag", ["check_compiler_flag"]),
      ModuleRule("CheckCSourceCompiles", ["check_c_source_compiles"]),
      ModuleRule("CheckCSourceRuns", ["check_c_source_runs"]),
      ModuleRule("CheckCXXCompilerFlag", ["check_cxx_compiler_flag"]),
      ModuleRule("CheckCXXSourceCompiles", ["check_cxx_source_compiles"]),
      ModuleRule("CheckCXXSourceRuns", ["check_cxx_source_runs"]),
      ModuleRule("CheckCXXSymbolExists", ["check_cxx_symbol_exists"]),
      ModuleRule("CheckFunctionExists", ["check_function_exists"]),
      ModuleRule("CheckIncludeFile", ["check_include_file"]),
      ModuleRule("CheckIncludeFileCXX", ["check_include_file_cxx"]),
      ModuleRule("CheckIncludeFiles", ["check_include_files"]),
      ModuleRule("CheckIPOSupported", ["check_ipo_supported"]),
      ModuleRule("CheckLanguage", ["check_language"]),
      ModuleRule("CheckLibraryExists", ["check_library_exists"]),
      ModuleRule("CheckLinkerFlag", ["check_linker_flag"]),
      ModuleRule("CheckPrototypeDefinition", ["check_prototype_definition"]),
      ModuleRule("CheckSourceCompiles", ["check_source_compiles"]),
      ModuleRule("CheckSourceRuns", ["check_source_runs"]),
      ModuleRule("CheckStructHasMember", ["check_struct_has_member"]),
      ModuleRule("CheckSymbolExists", ["check_symbol_exists"]),
      ModuleRule("CheckTypeSize", ["check_type_size"]),
      ModuleRule("CheckVariableExists", ["check_variable_exists"]),
      ModuleRule("CMakeDependentOption", ["cmake_dependent_option"]),
      ModuleRule("CMakePushCheckState", [
        "cmake_pop_check_state",
        "cmake_push_check_state",
        "cmake_reset_check_state"
      ]),
      ModuleRule("ExternalProject", [
        "ExternalProject_Add",
        "ExternalProject_Add_Step",
        "ExternalProject_Add_StepDependencies",
        "ExternalProject_Add_StepTargets",
        "ExternalProject_Get_Property"
      ]),
      ModuleRule("FeatureSummary", [
        "add_feature_info",
        "feature_summary",
        "set_package_properties"
      ]),
      ModuleRule("FetchContent", [
        "FetchContent_Declare",
        "FetchContent_GetProperties",
        "FetchContent_MakeAvailable",
        "FetchContent_Populate",
        "FetchContent_SetPopulated"
      ]),
      ModuleRule("FindPackageHandleStandardArgs", [
        "find_package_check_version",
        "find_package_handle_standard_args"
      ]),
      ModuleRule("FindPackageMessage", ["find_package_message"]),
      ModuleRule("ProcessorCount", ["processorcount"]),
      ModuleRule("PHP/AddCustomCommand", ["php_add_custom_command"]),
      ModuleRule("PHP/CheckAttribute", [
        "php_check_function_attribute",
        "php_check_variable_attribute"
      ]),
      ModuleRule("PHP/CheckCompilerFlag", ["php_check_compiler_flag"]),
      ModuleRule("PHP/ConfigureFile", ["php_configure_file"]),
      ModuleRule("PHP/Install", ["php_install"]),
      ModuleRule("PHP/PkgConfigGenerator", ["pkgconfig_generate_pc"]),
      ModuleRule("PHP/SearchLibraries", ["php_search_libraries"]),
      ModuleRule("PHP/SystemExtensions", ["PHP::SystemExtensions"])
    ]
  }
}
